/** Path set-up over overlay routers: the route is peeled one router per hop, the port of each
    router's own socket travels back, and every router on the path ends up as a relay. Here every
    text is read as it was sent; OverlayBuffers says when that is so. */
module OverlaySetup {
  import opened Frame
  import opened Route
  import Paths

  datatype Addr = Addr(host: int, port: nat)

  /** Name resolution, the same for every machine in a run. */
  type Names = map<string, int>

  /** A route text on its way to the overlay port of a host. */
  datatype Request = Request(src: Addr, dstHost: int, text: string)

  /** An answer on its way back. */
  datatype Reply = Reply(src: Addr, dst: Addr, text: seq<Byte>)

  datatype Mode = Waiting | Relaying(next: Addr) | Gone

  /** The process a router forks for one request. */
  datatype Child = Child(upstream: Addr, tokens: seq<string>, mode: Mode)

  const PORTS: nat := 65536

  /** The answer that says the route was not established. */
  const FAILED: seq<Byte> := [65]

  function AsBytes(s: string): seq<Byte> {
    if s == "" then [] else [s[0] as int % 256] + AsBytes(s[1..])
  }

  /** One byte for each character, in order. */
  lemma {:induction false} AsBytesAt(s: string)
    ensures |AsBytes(s)| == |s|
    ensures forall i :: 0 <= i < |s| ==> AsBytes(s)[i] == s[i] as int % 256
  {
    if s != "" {
      AsBytesAt(s[1..]);
    }
  }

  /** A port as printed into an answer. */
  function PortText(p: nat): seq<Byte> {
    Digits(p)
  }

  /** The 16 bits of a port field that atoi's result is squeezed into. */
  function PortOf(text: seq<Byte>): nat {
    Atoi(text) % PORTS
  }

  /** A text that strtol reads to its end. */
  predicate IsNumber(s: seq<Byte>) {
    var t := SkipSpaces(s);
    var d := if t != [] && (t[0] == MINUS || t[0] == PLUS) then t[1..] else t;
    s == [] || (d != [] && AllDigits(d))
  }

  /** A printed port is read back as the same port and is never taken for a failure. */
  lemma PortRoundTrip(p: nat)
    requires p < PORTS
    ensures IsNumber(PortText(p)) && Atoi(PortText(p)) != -1 && PortOf(PortText(p)) == p
  {
    var ds := Digits(p);
    assert SkipSpaces(ds) == ds;
    DigitRunOfDigits(p);
  }

  /** A name that spells a number in decimal. */
  predicate Spells(s: string, p: nat) {
    && s != "" && (forall i :: 0 <= i < |s| ==> '0' <= s[i] <= '9')
    && SpelledValue(s) == p
  }

  /** The value of its digits, the last one for the units. */
  function SpelledValue(s: string): int {
    if s == "" then 0 else 10 * SpelledValue(s[..|s| - 1]) + (s[|s| - 1] as int - '0' as int)
  }

  lemma {:induction false} SpelledIsDecimal(s: string)
    requires forall i :: 0 <= i < |s| ==> '0' <= s[i] <= '9'
    ensures AllDigits(AsBytes(s)) && DecimalValue(AsBytes(s)) == SpelledValue(s)
    decreases |s|
  {
    if s != "" {
      var front, c := s[..|s| - 1], s[|s| - 1];
      SpelledIsDecimal(front);
      AsBytesSnoc(front, c);
      assert front + [c] == s;
      DecimalSnoc(AsBytes(front), c as int);
    }
  }

  lemma AsBytesSnoc(s: string, c: char)
    ensures AsBytes(s + [c]) == AsBytes(s) + [c as int % 256]
  {
    AsBytesAt(s);
    AsBytesAt(s + [c]);
  }

  /** The port that such a name is taken for. */
  lemma PortSpelled(s: string, p: nat)
    requires Spells(s, p)
    ensures PortOf(AsBytes(s)) == p % 65536
  {
    SpelledIsDecimal(s);
    AtoiOfDigits(AsBytes(s));
  }

  /** Every port is spelled by its decimal digits. */
  lemma {:induction false} PortCanBeSpelled(p: nat) returns (s: string)
    ensures Spells(s, p)
  {
    var d := [(p % 10 + '0' as int) as char];
    if p < 10 {
      s := d;
      assert s[..0] == "";
    } else {
      var front := PortCanBeSpelled(p / 10);
      s := front + d;
      assert s[..|s| - 1] == front;
    }
  }

  /** A text of white space up to a, perhaps a sign up to b, and then digits to the end. */
  predicate NumberAt(s: seq<Byte>, a: int, b: int) {
    0 <= a <= b < |s| && AllSpaces(s[..a]) && IsSign(s[a..b]) && AllDigits(s[b..])
  }

  /** What isnumber accepts: nothing at all, or such a text. */
  lemma IsNumberIff(s: seq<Byte>)
    ensures IsNumber(s) <==> s == [] || exists a, b :: NumberAt(s, a, b)
  {
    if IsNumber(s) && s != [] {
      var a, b := NumberFound(s);
    }
    if a, b :| NumberAt(s, a, b) {
      NumberTaken(s, a, b);
    }
  }

  lemma NumberFound(s: seq<Byte>) returns (a: int, b: int)
    requires IsNumber(s) && s != []
    ensures NumberAt(s, a, b)
  {
    var t := SkipSpaces(s);
    a := SkippedSpaces(s);
    b := if t[0] == MINUS || t[0] == PLUS then a + 1 else a;
    assert s[a..] == t;
    assert s[b..] == t[b - a..];
    assert s[a..b] == t[..b - a];
  }

  lemma NumberTaken(s: seq<Byte>, a: int, b: int)
    requires NumberAt(s, a, b)
    ensures IsNumber(s)
  {
    var t := s[a..];
    assert s[..a] + t == s;
    assert t[..b - a] == s[a..b] && t[b - a..] == s[b..];
    SignThenDigits(t, b - a);
    SkipAllSpaces(s[..a], t);
  }

  lemma SignThenDigits(t: seq<Byte>, k: nat)
    requires k < |t| && IsSign(t[..k]) && AllDigits(t[k..])
    ensures !IsSpace(t[0])
    ensures k == if t[0] == MINUS || t[0] == PLUS then 1 else 0
  {
    assert t[k..][0] == t[k];
    assert k > 0 ==> t[..k][0] == t[0];
  }

  lemma {:induction false} SkippedSpaces(s: seq<Byte>) returns (a: nat)
    ensures a <= |s| && SkipSpaces(s) == s[a..] && AllSpaces(s[..a])
  {
    if s != [] && IsSpace(s[0]) {
      var k := SkippedSpaces(s[1..]);
      a := k + 1;
      assert s[..a] == [s[0]] + s[1..][..k];
      assert s[a..] == s[1..][k..];
    } else {
      a := 0;
    }
  }

  lemma FailureIsNoNumber()
    ensures !IsNumber(FAILED)
  {
    assert SkipSpaces(FAILED) == FAILED;
    assert !AllDigits(FAILED) by {
      assert !IsDigit(FAILED[0]);
    }
  }

  // ---- one router process, on values

  /** The process after its request, with what it sends. */
  datatype Opening = Opening(child: Child, forward: Option<Request>, answer: Option<Reply>)

  /** Up to the point where it relays, waits for the next router, or gives up. */
  function Open(names: Names, req: Request, self: Addr): Opening
    requires |Tokens(req.text)| >= 2
  {
    var ts := Tokens(req.text);
    if |ts| == 3 then
      if ts[0] in names then
        Opening(Child(req.src, ts, Relaying(Addr(names[ts[0]], PortOf(AsBytes(ts[1]))))),
                None, Some(Reply(self, req.src, PortText(self.port))))
      else Opening(Child(req.src, ts, Gone), None, None)
    else
      var next := ts[|ts| - 2];
      Opening(Child(req.src, ts, Waiting),
              if next in names then Some(Request(self, names[next], Encode(ts[..|ts| - 1]))) else None,
              None)
  }

  /** A process relays at once only for three names, and then it has answered. */
  lemma OpenShape(names: Names, req: Request, self: Addr)
    requires |Tokens(req.text)| >= 2
    ensures var (o, ts) := (Open(names, req, self), Tokens(req.text));
            && o.child == Child(req.src, ts, o.child.mode)
            && (o.child.mode.Relaying? ==> |ts| == 3 && ts[0] in names)
            && (o.answer.Some? ==> o.child.mode.Relaying? && o.answer.value == Reply(self, req.src, PortText(self.port)))
  {
  }

  /** What becomes of it: for three names it relays and has answered, or it leaves in silence if the destination does not
      resolve; for any other list it waits, and has asked the router before if that one resolves. */
  lemma OpenIff(names: Names, req: Request, self: Addr)
    requires |Tokens(req.text)| >= 2
    ensures var (o, ts) := (Open(names, req, self), Tokens(req.text));
            && (o.child.mode.Relaying? <==> |ts| == 3 && ts[0] in names)
            && (o.child.mode == Gone <==> |ts| == 3 && ts[0] !in names)
            && (o.answer.Some? <==> o.child.mode.Relaying?)
            && (o.forward.Some? <==> |ts| != 3 && ts[|ts| - 2] in names)
            && (o.forward.Some? ==> o.forward.value == Request(self, names[ts[|ts| - 2]], o.forward.value.text)
                                    && Tokens(o.forward.value.text) == Front(ts))
  {
    ForwardedNames(names, req, self);
  }

  /** For three names it relays to the port that the second one spells, in 16 bits, on the host that the first one stands
      for. */
  lemma OpenRelaysTo(names: Names, req: Request, self: Addr, p: nat)
    requires |Tokens(req.text)| == 3 && Tokens(req.text)[0] in names && Spells(Tokens(req.text)[1], p)
    ensures Open(names, req, self).child.mode == Relaying(Addr(names[Tokens(req.text)[0]], p % 65536))
  {
    PortSpelled(Tokens(req.text)[1], p);
  }

  /** A waiting process hears an answer: relay and answer with its own port, or fail. */
  function Hear(names: Names, c: Child, self: Addr, text: seq<Byte>): (Child, Option<Reply>)
    requires c.mode == Waiting && |c.tokens| >= 2 && c.tokens[|c.tokens| - 2] in names
  {
    if IsNumber(text) then
      if Atoi(text) == -1 then (c.(mode := Gone), Some(Reply(self, c.upstream, FAILED)))
      else (c.(mode := Relaying(Addr(names[c.tokens[|c.tokens| - 2]], PortOf(text)))),
            Some(Reply(self, c.upstream, PortText(self.port))))
    else (c.(mode := Gone), None)
  }

  /** A printed port turns a waiting process into a relay and is passed on as the process's own port. */
  lemma HearPort(names: Names, c: Child, self: Addr, p: nat)
    requires c.mode == Waiting && |c.tokens| >= 2 && c.tokens[|c.tokens| - 2] in names && p < PORTS
    ensures Hear(names, c, self, PortText(p))
         == (c.(mode := Relaying(Addr(names[c.tokens[|c.tokens| - 2]], p))), Some(Reply(self, c.upstream, PortText(self.port))))
  {
    PortRoundTrip(p);
  }

  /** Hearing changes the mode only; what is answered goes upstream and carries a failure unless the process relays now, and
      a failure does not make it relay. */
  lemma HearShape(names: Names, c: Child, self: Addr, text: seq<Byte>)
    requires c.mode == Waiting && |c.tokens| >= 2 && c.tokens[|c.tokens| - 2] in names
    ensures var (c', out) := Hear(names, c, self, text);
            && c' == c.(mode := c'.mode) && c'.mode != Waiting
            && (text == FAILED ==> !c'.mode.Relaying?)
            && (out.Some? ==>
                  out.value == Reply(self, c.upstream, out.value.text) && (out.value.text == FAILED || c'.mode.Relaying?))
  {
    FailureIsNoNumber();
  }

  /** What any text makes it do: relay to that port for a number other than -1, and answer with its own; report a failure
      for -1; leave in silence for anything else. */
  lemma HearIff(names: Names, c: Child, self: Addr, text: seq<Byte>)
    requires c.mode == Waiting && |c.tokens| >= 2 && c.tokens[|c.tokens| - 2] in names
    ensures var (c', out) := Hear(names, c, self, text);
            && (c'.mode.Relaying? <==> IsNumber(text) && Atoi(text) != -1)
            && (c'.mode.Relaying? ==> c'.mode.next == Addr(names[c.tokens[|c.tokens| - 2]], Atoi(text) % PORTS))
            && (!c'.mode.Relaying? ==> c'.mode == Gone)
            && (out.Some? <==> IsNumber(text))
            && (out.Some? ==> out.value.text == if c'.mode.Relaying? then PortText(self.port) else ['A' as int])
  {
  }

  /** A waiting process times out. */
  function GiveUp(c: Child, self: Addr): (Child, Option<Reply>) {
    (c.(mode := Gone), Some(Reply(self, c.upstream, FAILED)))
  }

  // ---- one router process, as a program

  class RouterProcess {
    const names: Names
    const self: Addr
    const upstream: Addr
    var tokens: seq<string>
    var mode: Mode
    /** The two kinds of datagrams handed to sendto, oldest first. */
    var forwarded: seq<Request>
    var answered: seq<Reply>

    ghost function Abs(): Child
      reads this
    {
      Child(upstream, tokens, mode)
    }

    constructor (names: Names, req: Request, self: Addr)
      requires |Tokens(req.text)| >= 2
      ensures this.names == names && this.self == self
      ensures Abs() == Open(names, req, self).child
      ensures forwarded == if Open(names, req, self).forward.Some? then [Open(names, req, self).forward.value] else []
      ensures answered == if Open(names, req, self).answer.Some? then [Open(names, req, self).answer.value] else []
      ensures forall p: nat {:trigger Spells(Tokens(req.text)[1], p)} ::
                |Tokens(req.text)| == 3 && Tokens(req.text)[0] in names && Spells(Tokens(req.text)[1], p) ==>
                  mode == Relaying(Addr(names[Tokens(req.text)[0]], p % 65536))
    {
      this.names := names;
      this.self := self;
      upstream := req.src;
      mode := Waiting;
      forwarded, answered := [], [];
      tokens := [];
      new;
      tokens := Tokenise(req.text);
      var a := |tokens|;
      if a == 3 {
        if tokens[0] in names {
          answered := [Reply(self, upstream, PortText(self.port))];
          mode := Relaying(Addr(names[tokens[0]], PortOf(AsBytes(tokens[1]))));
          forall p: nat | Spells(tokens[1], p)
            ensures Open(names, req, self).child.mode == Relaying(Addr(names[tokens[0]], p % 65536))
          {
            OpenRelaysTo(names, req, self, p);
          }
        } else {
          mode := Gone;
        }
      } else {
        var serverToContact := tokens[a - 2];
        var str := Rebuild(tokens);
        if serverToContact in names {
          forwarded := [Request(self, names[serverToContact], str)];
        }
      }
    }

    method OnAnswer(text: seq<Byte>)
      requires mode == Waiting && |tokens| >= 2 && tokens[|tokens| - 2] in names
      modifies this`mode, this`answered
      ensures Abs() == Hear(names, old(Abs()), self, text).0
      ensures var out := Hear(names, old(Abs()), self, text).1;
              answered == old(answered) + if out.Some? then [out.value] else []
    {
      if IsNumber(text) {
        if Atoi(text) == -1 {
          answered := answered + [Reply(self, upstream, FAILED)];
          mode := Gone;
        } else {
          answered := answered + [Reply(self, upstream, PortText(self.port))];
          mode := Relaying(Addr(names[tokens[|tokens| - 2]], PortOf(text)));
        }
      } else {
        mode := Gone;
      }
    }

    method OnTimeout()
      requires mode == Waiting
      modifies this`mode, this`answered
      ensures Abs() == GiveUp(old(Abs()), self).0 && answered == old(answered) + [GiveUp(old(Abs()), self).1.value]
    {
      answered := answered + [Reply(self, upstream, FAILED)];
      mode := Gone;
    }
  }

  // ---- the whole system

  /** One set-up: the names to be resolved, the route (dst, port, router k, ..., router 1), and the builder's socket. */
  datatype Env = Env(names: Names, route: seq<string>, builder: Addr) {
    ghost predicate Valid() {
      |route| >= 3 && AllClean(route)
    }
  }

  datatype Outcome = Pending | Success(port: nat) | Failure

  /** Processes by their socket address; requests and answers ever sent, which may be lost or arrive repeatedly. */
  datatype State = State(children: map<Addr, Child>, requests: set<Request>, replies: set<Reply>, outcome: Outcome)

  function Last(ts: seq<string>): string
    requires |ts| >= 1
  {
    ts[|ts| - 1]
  }

  function Front(ts: seq<string>): seq<string>
    requires |ts| >= 1
  {
    ts[..|ts| - 1]
  }

  ghost predicate Init(env: Env, s: State) {
    && env.Valid()
    && s == State(map[],
                  if Last(env.route) in env.names
                  then {Request(env.builder, env.names[Last(env.route)], Encode(env.route))} else {},
                  {}, Pending)
  }

  datatype Action =
    | Spawn(req: Request, port: nat)
    | Response(at: Addr, reply: Reply)
    | Timeout(at: Addr)
    | BuilderHears(reply: Reply)

  function AsSet<T(==)>(o: Option<T>): set<T> {
    if o.Some? then {o.value} else {}
  }

  /** A process is forked for what has been read of a request. */
  ghost predicate Forked(env: Env, s: State, req: Request, port: nat, s': State) {
    var self := Addr(req.dstHost, port);
    && |Tokens(req.text)| >= 2
    && 1 <= port < PORTS && self !in s.children && self != env.builder
    && var o := Open(env.names, req, self);
       s' == s.(children := s.children[self := o.child],
                requests := s.requests + AsSet(o.forward),
                replies := s.replies + AsSet(o.answer))
  }

  /** The system while every text is read exactly as it was sent. */
  ghost predicate Next(env: Env, s: State, a: Action, s': State) {
    match a
    case Spawn(req, port) => req in s.requests && Forked(env, s, req, port, s')
    case Response(at, reply) =>
      && at in s.children && s.children[at].mode == Waiting && reply in s.replies && reply.dst == at
      && |s.children[at].tokens| >= 2 && s.children[at].tokens[|s.children[at].tokens| - 2] in env.names
      && var (c, out) := Hear(env.names, s.children[at], at, reply.text);
         s' == s.(children := s.children[at := c], replies := s.replies + AsSet(out))
    case Timeout(at) =>
      && at in s.children && s.children[at].mode == Waiting
      && var (c, out) := GiveUp(s.children[at], at);
         s' == s.(children := s.children[at := c], replies := s.replies + AsSet(out))
    case BuilderHears(reply) =>
      && s.outcome == Pending && reply in s.replies && reply.dst == env.builder
      && s' == s.(outcome := if IsNumber(reply.text) && Atoi(reply.text) != -1 then Success(PortOf(reply.text)) else Failure)
  }

  ghost function Steps(env: Env): (State, State) -> bool {
    (s, s') => exists a :: Next(env, s, a, s')
  }

  ghost predicate Reaches(env: Env, s: State, s': State) {
    Paths.Reaches(Steps(env), s, s')
  }

  // ---- the invariant

  /** A process holds the first names of the route and sits on the host that the last of them stands for; its list is
      the route, or its upstream's list less one name. */
  ghost predicate Placed(env: Env, children: map<Addr, Child>, a: Addr)
    requires a in children
  {
    var c := children[a];
    && |c.tokens| >= 3 && AllClean(c.tokens) && c.tokens <= env.route
    && Last(c.tokens) in env.names && a.host == env.names[Last(c.tokens)]
    && 1 <= a.port < PORTS
    && (c.mode == Waiting ==> |c.tokens| >= 4)
    && if c.upstream == env.builder then c.tokens == env.route
       else c.upstream in children && |children[c.upstream].tokens| >= 4 && c.tokens == Front(children[c.upstream].tokens)
  }

  /** A relaying process sends on to its destination, or to the relaying process that answered it. */
  ghost predicate Linked(env: Env, children: map<Addr, Child>, a: Addr)
    requires a in children && |children[a].tokens| >= 3
  {
    var c := children[a];
    c.mode.Relaying? ==>
      var next := c.mode.next;
      if |c.tokens| == 3 then
        c.tokens[0] in env.names && next == Addr(env.names[c.tokens[0]], PortOf(AsBytes(c.tokens[1])))
      else
        && next in children && children[next].mode.Relaying?
        && children[next].upstream == a && children[next].tokens == Front(c.tokens)
  }

  ghost predicate RequestOk(env: Env, children: map<Addr, Child>, r: Request)
    requires env.Valid()
  {
    var ts := Tokens(r.text);
    && |ts| >= 3 && ts <= env.route && r.text == Encode(ts)
    && Last(ts) in env.names && r.dstHost == env.names[Last(ts)]
    && if r.src == env.builder then ts == env.route
       else r.src in children && |children[r.src].tokens| >= 4 && ts == Front(children[r.src].tokens)
  }

  /** An answer comes from a process that no longer waits, and carries its port exactly if it relays. */
  ghost predicate ReplyOk(children: map<Addr, Child>, r: Reply) {
    && r.src in children && children[r.src].upstream == r.dst && children[r.src].mode != Waiting
    && (r.text == FAILED || (children[r.src].mode.Relaying? && r.text == PortText(r.src.port)))
  }

  /** A relaying process has answered its upstream with its port. */
  ghost predicate Answered(children: map<Addr, Child>, replies: set<Reply>, a: Addr)
    requires a in children
  {
    children[a].mode.Relaying? ==> Reply(a, children[a].upstream, PortText(a.port)) in replies
  }

  ghost predicate ProcessesOk(env: Env, children: map<Addr, Child>) {
    && (forall a {:trigger Placed(env, children, a)} :: a in children ==> Placed(env, children, a))
    && (forall a {:trigger Linked(env, children, a)} :: a in children ==> Placed(env, children, a) && Linked(env, children, a))
  }

  ghost predicate RequestsOk(env: Env, children: map<Addr, Child>, requests: set<Request>)
    requires env.Valid()
  {
    forall r {:trigger RequestOk(env, children, r)} :: r in requests ==> RequestOk(env, children, r)
  }

  ghost predicate RepliesOk(children: map<Addr, Child>, replies: set<Reply>) {
    && (forall r {:trigger ReplyOk(children, r)} :: r in replies ==> ReplyOk(children, r))
    && (forall a {:trigger Answered(children, replies, a)} :: a in children ==> Answered(children, replies, a))
  }

  /** The builder was given the port of a relaying process of router 1 that was forked for it. */
  ghost predicate OutcomeOk(env: Env, s: State)
    requires env.Valid()
  {
    s.outcome.Success? ==>
      && Last(env.route) in env.names
      && var first := Addr(env.names[Last(env.route)], s.outcome.port);
         first in s.children && s.children[first].mode.Relaying? && s.children[first].upstream == env.builder
  }

  ghost predicate Inv(env: Env, s: State) {
    && env.Valid()
    && env.builder !in s.children
    && ProcessesOk(env, s.children)
    && RequestsOk(env, s.children, s.requests)
    && RepliesOk(s.children, s.replies)
    && OutcomeOk(env, s)
  }

  lemma InitInv(env: Env, s: State)
    requires Init(env, s)
    ensures Inv(env, s)
  {
    RouteRoundTripIff(env.route);
  }

  /** Processes are never forgotten or moved, and one that no longer waits stays as it is. */
  ghost predicate Extends(m: map<Addr, Child>, m': map<Addr, Child>) {
    forall a :: a in m ==>
      && a in m' && m'[a].upstream == m[a].upstream && m'[a].tokens == m[a].tokens
      && (m[a].mode != Waiting ==> m'[a] == m[a])
  }

  lemma NextExtends(env: Env, s: State, a: Action, s': State)
    requires Next(env, s, a, s')
    ensures Extends(s.children, s'.children)
    ensures s.outcome != Pending ==> s'.outcome == s.outcome
  {
  }

  lemma PlacedKept(env: Env, m: map<Addr, Child>, m': map<Addr, Child>, a: Addr)
    requires Extends(m, m') && a in m && Placed(env, m, a) && (m'[a].mode == Waiting ==> m[a].mode == Waiting)
    ensures Placed(env, m', a)
  {
  }

  lemma LinkedKept(env: Env, m: map<Addr, Child>, m': map<Addr, Child>, a: Addr)
    requires Extends(m, m') && a in m && |m[a].tokens| >= 3 && Linked(env, m, a) && m'[a].mode == m[a].mode
    ensures Linked(env, m', a)
  {
  }

  lemma RequestsKept(env: Env, s: State, m': map<Addr, Child>, forward: Option<Request>)
    requires Inv(env, s) && Extends(s.children, m')
    requires forward.Some? ==> RequestOk(env, m', forward.value)
    ensures RequestsOk(env, m', s.requests + AsSet(forward))
  {
    forall r | r in s.requests + AsSet(forward)
      ensures RequestOk(env, m', r)
    {
      if r in s.requests {
        assert RequestOk(env, s.children, r);
      }
    }
  }

  lemma RepliesKept(env: Env, s: State, at: Addr, c: Child, answer: Option<Reply>)
    requires Inv(env, s) && Extends(s.children, s.children[at := c])
    requires answer.Some? ==> ReplyOk(s.children[at := c], answer.value)
    requires c.mode.Relaying? ==> answer == Some(Reply(at, c.upstream, PortText(at.port)))
    ensures RepliesOk(s.children[at := c], s.replies + AsSet(answer))
  {
    var m, replies := s.children[at := c], s.replies + AsSet(answer);
    forall r | r in replies
      ensures ReplyOk(m, r)
    {
      if r in s.replies {
        assert ReplyOk(s.children, r);
      }
    }
    forall x | x in m
      ensures Answered(m, replies, x)
    {
      if x != at {
        assert Answered(s.children, s.replies, x);
      }
    }
  }

  lemma ProcessesKept(env: Env, s: State, at: Addr, c: Child)
    requires Inv(env, s) && Extends(s.children, s.children[at := c])
    requires Placed(env, s.children[at := c], at) && Linked(env, s.children[at := c], at)
    ensures ProcessesOk(env, s.children[at := c])
  {
    var m := s.children[at := c];
    forall x | x in m
      ensures Placed(env, m, x) && Linked(env, m, x)
    {
      if x != at {
        assert Placed(env, s.children, x) && Linked(env, s.children, x);
        PlacedKept(env, s.children, m, x);
        LinkedKept(env, s.children, m, x);
      }
    }
  }

  /** A step that sets one process and sends at most one message of each kind keeps the invariant
      if that process and those messages are in order. */
  lemma UpdateInv(env: Env, s: State, at: Addr, c: Child, forward: Option<Request>, answer: Option<Reply>, s': State)
    requires Inv(env, s) && at != env.builder
    requires s' == s.(children := s.children[at := c],
                      requests := s.requests + AsSet(forward), replies := s.replies + AsSet(answer))
    requires Extends(s.children, s'.children)
    requires Placed(env, s'.children, at) && Linked(env, s'.children, at)
    requires forward.Some? ==> RequestOk(env, s'.children, forward.value)
    requires answer.Some? ==> ReplyOk(s'.children, answer.value)
    requires c.mode.Relaying? ==> answer == Some(Reply(at, c.upstream, PortText(at.port)))
    ensures Inv(env, s')
  {
    ProcessesKept(env, s, at, c);
    RequestsKept(env, s, s'.children, forward);
    RepliesKept(env, s, at, c, answer);
    assert OutcomeOk(env, s');
  }

  lemma NextInv(env: Env, s: State, a: Action, s': State)
    requires Inv(env, s) && Next(env, s, a, s')
    ensures Inv(env, s')
  {
    match a
    case Spawn(req, port) => SpawnInv(env, s, req, port, s');
    case Response(at, reply) => ResponseInv(env, s, at, reply, s');
    case Timeout(at) => TimeoutInv(env, s, at, s');
    case BuilderHears(reply) => BuilderHearsInv(env, s, reply, s');
  }

  /** The process forked for a request in order is placed and linked. */
  lemma OpenedInOrder(env: Env, children: map<Addr, Child>, req: Request, self: Addr)
    requires env.Valid() && RequestOk(env, children, req)
    requires self !in children && self.host == req.dstHost && 1 <= self.port < PORTS
    ensures var c := Open(env.names, req, self).child;
            var m := children[self := c];
            Placed(env, m, self) && Linked(env, m, self)
  {
    var m := children[self := Open(env.names, req, self).child];
    assert req.src in children ==> m[req.src] == children[req.src];
  }

  /** So is what it forwards. */
  lemma ForwardedInOrder(env: Env, children: map<Addr, Child>, req: Request, self: Addr)
    requires env.Valid() && |Tokens(req.text)| >= 3 && Tokens(req.text) <= env.route && self != env.builder
    ensures var o := Open(env.names, req, self);
            o.forward.Some? ==> RequestOk(env, children[self := o.child], o.forward.value)
  {
    var o := Open(env.names, req, self);
    var ts := Tokens(req.text);
    if |ts| > 3 && ts[|ts| - 2] in env.names {
      ForwardedNames(env.names, req, self);
      ForwardInOrder(env, children[self := o.child], o.forward.value, ts);
    }
  }

  lemma AnswerInOrder(env: Env, children: map<Addr, Child>, req: Request, self: Addr)
    requires |Tokens(req.text)| >= 3
    ensures var o := Open(env.names, req, self);
            && (o.answer.Some? ==> ReplyOk(children[self := o.child], o.answer.value))
            && (o.child.mode.Relaying? ==> o.answer == Some(Reply(self, o.child.upstream, PortText(self.port))))
  {
  }

  lemma ForwardInOrder(env: Env, m: map<Addr, Child>, r: Request, ts: seq<string>)
    requires env.Valid() && |ts| >= 4 && ts <= env.route && ts[|ts| - 2] in env.names
    requires r.src in m && r.src != env.builder && m[r.src].tokens == ts
    requires r.dstHost == env.names[ts[|ts| - 2]] && Tokens(r.text) == Front(ts) && r.text == Encode(Front(ts))
    ensures RequestOk(env, m, r)
  {
    assert Last(Front(ts)) == ts[|ts| - 2];
  }

  /** The forwarded text holds the same names without the last. */
  lemma ForwardedNames(names: Names, req: Request, self: Addr)
    requires |Tokens(req.text)| >= 2
    ensures var o := Open(names, req, self);
            o.forward.Some? ==>
              && Tokens(o.forward.value.text) == Front(Tokens(req.text))
              && o.forward.value.text == Encode(Front(Tokens(req.text)))
  {
    RouterStep(req.text);
  }

  lemma SpawnInv(env: Env, s: State, req: Request, port: nat, s': State)
    requires Inv(env, s) && Next(env, s, Spawn(req, port), s')
    ensures Inv(env, s')
  {
    var self := Addr(req.dstHost, port);
    var o := Open(env.names, req, self);
    assert RequestOk(env, s.children, req);
    OpenedInOrder(env, s.children, req, self);
    ForwardedInOrder(env, s.children, req, self);
    AnswerInOrder(env, s.children, req, self);
    UpdateInv(env, s, self, o.child, o.forward, o.answer, s');
  }

  /** A process whose upstream is a process holds that one's list less the last name. */
  lemma ForkedFor(env: Env, s: State, c: Addr)
    requires Inv(env, s) && c in s.children && s.children[c].upstream in s.children
    ensures var ts := s.children[s.children[c].upstream].tokens;
            && |ts| >= 4 && ts[|ts| - 2] in env.names && s.children[c].tokens == Front(ts)
            && c.host == env.names[ts[|ts| - 2]] && 1 <= c.port < PORTS
  {
    assert Placed(env, s.children, c);
  }

  /** The answer a process accepts comes from a relaying process that it caused, or is a failure. */
  lemma AcceptedReply(env: Env, s: State, at: Addr, reply: Reply)
    requires Inv(env, s) && at in s.children && reply in s.replies && reply.dst == at
    ensures |s.children[at].tokens| >= 4 && s.children[at].tokens[|s.children[at].tokens| - 2] in env.names
    ensures reply.src in s.children && s.children[reply.src].upstream == at
    ensures s.children[reply.src].tokens == Front(s.children[at].tokens)
    ensures reply.text == FAILED ||
      (&& s.children[reply.src].mode.Relaying?
       && reply.src.host == env.names[s.children[at].tokens[|s.children[at].tokens| - 2]]
       && IsNumber(reply.text) && Atoi(reply.text) != -1 && PortOf(reply.text) == reply.src.port)
  {
    assert ReplyOk(s.children, reply);
    ForkedFor(env, s, reply.src);
    if reply.text != FAILED {
      PortRoundTrip(reply.src.port);
    }
  }

  /** A process that hears an answer is placed and linked, and what it answers itself is in order. */
  lemma HeardInOrder(env: Env, s: State, at: Addr, reply: Reply)
    requires Inv(env, s) && at in s.children && s.children[at].mode == Waiting && reply in s.replies && reply.dst == at
    requires |s.children[at].tokens| >= 2 && s.children[at].tokens[|s.children[at].tokens| - 2] in env.names
    ensures var (c, out) := Hear(env.names, s.children[at], at, reply.text);
            var m := s.children[at := c];
            && Placed(env, m, at) && Linked(env, m, at)
            && (out.Some? ==> ReplyOk(m, out.value))
            && (c.mode.Relaying? ==> out == Some(Reply(at, c.upstream, PortText(at.port))))
  {
    AcceptedReply(env, s, at, reply);
    FailureIsNoNumber();
    assert Placed(env, s.children, at);
    PlacedKept(env, s.children, s.children[at := Hear(env.names, s.children[at], at, reply.text).0], at);
  }

  lemma ResponseInv(env: Env, s: State, at: Addr, reply: Reply, s': State)
    requires Inv(env, s) && Next(env, s, Response(at, reply), s')
    ensures Inv(env, s')
  {
    HeardInOrder(env, s, at, reply);
    var (c, out) := Hear(env.names, s.children[at], at, reply.text);
    assert s'.requests == s.requests + AsSet(None);
    UpdateInv(env, s, at, c, None, out, s');
  }

  lemma TimeoutInv(env: Env, s: State, at: Addr, s': State)
    requires Inv(env, s) && Next(env, s, Timeout(at), s')
    ensures Inv(env, s')
  {
    assert Placed(env, s.children, at);
    var (c, out) := GiveUp(s.children[at], at);
    PlacedKept(env, s.children, s'.children, at);
    assert s'.requests == s.requests + AsSet(None);
    UpdateInv(env, s, at, c, None, out, s');
  }

  lemma BuilderHearsInv(env: Env, s: State, reply: Reply, s': State)
    requires Inv(env, s) && Next(env, s, BuilderHears(reply), s')
    ensures Inv(env, s')
  {
    FailureIsNoNumber();
    if s'.outcome.Success? {
      assert ReplyOk(s.children, reply);
      assert Placed(env, s.children, reply.src);
      PortRoundTrip(reply.src.port);
    }
  }

  lemma ReachableInv(env: Env, s0: State, s: State)
    requires Init(env, s0) && Reaches(env, s0, s)
    ensures Inv(env, s)
  {
    InitInv(env, s0);
    forall a, b | Inv(env, a) && Steps(env)(a, b)
      ensures Inv(env, b)
    {
      var act :| Next(env, a, act, b);
      NextInv(env, a, act, b);
    }
    Paths.KeptByReach(Steps(env), x => Inv(env, x), s0, s);
  }

  /** No message is ever stuck for its receiver: requests name at least a destination and a router, and an
      answer to a waiting process finds the next router resolved. */
  lemma MessagesCanBeTaken(env: Env, s0: State, s: State)
    requires Init(env, s0) && Reaches(env, s0, s)
    ensures forall r :: r in s.requests ==> |Tokens(r.text)| >= 3
    ensures forall r :: r in s.replies && r.dst in s.children ==>
              var ts := s.children[r.dst].tokens; |ts| >= 4 && ts[|ts| - 2] in env.names
  {
    ReachableInv(env, s0, s);
    forall r | r in s.requests
      ensures |Tokens(r.text)| >= 3
    {
      assert RequestOk(env, s.children, r);
    }
    forall r | r in s.replies && r.dst in s.children
      ensures var ts := s.children[r.dst].tokens; |ts| >= 4 && ts[|ts| - 2] in env.names
    {
      AcceptedReply(env, s, r.dst, r);
    }
  }

  // ---- main result: what a success means

  /** The addresses hops lead over the last |hops| names of a list, one relaying process each, to the destination. */
  ghost predicate IsChain(env: Env, children: map<Addr, Child>, ts: seq<string>, hops: seq<Addr>) {
    && |hops| == |ts| - 2 >= 1
    && ts[0] in env.names
    && (forall i :: 0 <= i < |hops| ==>
          && hops[i] in children && children[hops[i]].mode.Relaying?
          && children[hops[i]].tokens == ts[..|ts| - i]
          && ts[|ts| - 1 - i] in env.names && hops[i].host == env.names[ts[|ts| - 1 - i]])
    && (forall i :: 0 <= i < |hops| - 1 ==>
          children[hops[i]].mode.next == hops[i + 1] && children[hops[i + 1]].upstream == hops[i])
    && children[hops[|hops| - 1]].mode.next == Addr(env.names[ts[0]], PortOf(AsBytes(ts[1])))
  }

  /** The processes met on the way from a, following the relays, n at most. */
  ghost function Hops(children: map<Addr, Child>, a: Addr, n: nat): seq<Addr>
    decreases n
  {
    if n == 0 then []
    else [a] + if a in children && children[a].mode.Relaying? then Hops(children, children[a].mode.next, n - 1) else []
  }

  lemma {:induction false} ChainFrom(env: Env, s: State, a: Addr)
    requires Inv(env, s) && a in s.children && s.children[a].mode.Relaying? && |s.children[a].tokens| >= 3
    ensures var hops := Hops(s.children, a, |s.children[a].tokens| - 2);
            hops != [] && hops[0] == a && IsChain(env, s.children, s.children[a].tokens, hops)
    decreases |s.children[a].tokens|
  {
    var c := s.children[a];
    assert Placed(env, s.children, a) && Linked(env, s.children, a);
    assert c.tokens[..|c.tokens|] == c.tokens;
    if |c.tokens| > 3 {
      ChainFrom(env, s, c.mode.next);
      ChainCons(env, s.children, a, Hops(s.children, c.mode.next, |c.tokens| - 3));
    }
  }

  /** No process is in a chain twice. */
  lemma ChainIsDistinct(env: Env, children: map<Addr, Child>, ts: seq<string>, hops: seq<Addr>)
    requires IsChain(env, children, ts, hops)
    ensures forall i, j :: 0 <= i < j < |hops| ==> hops[i] != hops[j]
  {
    forall i, j | 0 <= i < j < |hops|
      ensures hops[i] != hops[j]
    {
      assert |children[hops[i]].tokens| == |ts| - i;
      assert |children[hops[j]].tokens| == |ts| - j;
    }
  }

  /** A relaying process in front of a chain for its list less one name makes a chain. */
  lemma ChainCons(env: Env, children: map<Addr, Child>, a: Addr, rest: seq<Addr>)
    requires a in children && children[a].mode.Relaying? && |children[a].tokens| >= 4
    requires Last(children[a].tokens) in env.names && a.host == env.names[Last(children[a].tokens)]
    requires IsChain(env, children, Front(children[a].tokens), rest)
    requires children[a].mode.next == rest[0] && children[rest[0]].upstream == a
    ensures IsChain(env, children, children[a].tokens, [a] + rest)
  {
    var ts, hops := children[a].tokens, [a] + rest;
    forall i | 0 <= i < |hops|
      ensures && hops[i] in children && children[hops[i]].mode.Relaying?
              && children[hops[i]].tokens == ts[..|ts| - i]
              && ts[|ts| - 1 - i] in env.names
              && hops[i].host == env.names[ts[|ts| - 1 - i]]
    {
      if i > 0 {
        assert hops[i] == rest[i - 1];
        assert Front(ts)[..|ts| - i] == ts[..|ts| - i];
      } else {
        assert ts[..|ts|] == ts;
      }
    }
  }

  /** The builder was given a port, and router 1 resolves. */
  ghost predicate HasPath(env: Env, s: State) {
    |env.route| >= 3 && Last(env.route) in env.names && s.outcome.Success?
  }

  /** The process the builder was given the port of. */
  ghost function First(env: Env, s: State): Addr
    requires HasPath(env, s)
  {
    Addr(env.names[Last(env.route)], s.outcome.port)
  }

  /** The processes from there to the destination. */
  ghost function Path(env: Env, s: State): (hops: seq<Addr>)
    requires HasPath(env, s)
    ensures hops != []
  {
    Hops(s.children, First(env, s), |env.route| - 2)
  }

  /** The way stays the same once all its processes relay. */
  lemma {:induction false} HopsKept(m: map<Addr, Child>, m': map<Addr, Child>, a: Addr, n: nat)
    requires Extends(m, m') && |Hops(m, a, n)| == n
    requires forall h :: h in Hops(m, a, n) ==> h in m && m[h].mode.Relaying?
    ensures Hops(m', a, n) == Hops(m, a, n)
    decreases n
  {
    if n > 0 {
      assert a in Hops(m, a, n);
      HopsKept(m, m', m[a].mode.next, n - 1);
    }
  }

  lemma PathIsChain(env: Env, s: State)
    requires Inv(env, s) && s.outcome.Success?
    ensures HasPath(env, s)
    ensures var hops := Path(env, s);
            && IsChain(env, s.children, env.route, hops)
            && hops[0] == First(env, s) && s.children[hops[0]].upstream == env.builder
            && forall i, j :: 0 <= i < j < |hops| ==> hops[i] != hops[j]
  {
    var first := First(env, s);
    assert Placed(env, s.children, first);
    ChainFrom(env, s, first);
    ChainIsDistinct(env, s.children, env.route, Path(env, s));
  }

  /** From a success on, no step changes the way. */
  lemma PathKept(env: Env, s: State, a: Action, s': State)
    requires Inv(env, s) && Next(env, s, a, s') && HasPath(env, s)
    ensures HasPath(env, s') && First(env, s') == First(env, s) && Path(env, s') == Path(env, s)
  {
    NextExtends(env, s, a, s');
    PathIsChain(env, s);
    HopsKept(s.children, s'.children, First(env, s), |env.route| - 2);
  }

  /** If the builder is given a port, then the routers of the route were visited in order: a process of router 1
      listens on that port, each relays to the port that the next one opened, the last one to the destination. */
  lemma SuccessMeansLinkedPath(env: Env, s0: State, s: State) returns (hops: seq<Addr>)
    requires Init(env, s0) && Reaches(env, s0, s) && s.outcome.Success?
    ensures IsChain(env, s.children, env.route, hops)
    ensures hops[0].port == s.outcome.port && s.children[hops[0]].upstream == env.builder
    ensures forall i, j :: 0 <= i < j < |hops| ==> hops[i] != hops[j]
  {
    ReachableInv(env, s0, s);
    PathIsChain(env, s);
    hops := Path(env, s);
  }

  /** Nobody else is ever involved: whatever is lost or repeated, each process there has ever been holds the first
      names of the route, destination and port included, and sits on the host that the last of its names stands for. */
  lemma OnlyTheRouteIsVisited(env: Env, s0: State, s: State)
    requires Init(env, s0) && Reaches(env, s0, s)
    ensures forall a :: a in s.children ==>
              var ts := s.children[a].tokens;
              |ts| >= 3 && ts <= env.route && Last(ts) in env.names && a.host == env.names[Last(ts)]
  {
    ReachableInv(env, s0, s);
    forall a | a in s.children
      ensures var ts := s.children[a].tokens;
              |ts| >= 3 && ts <= env.route && Last(ts) in env.names && a.host == env.names[Last(ts)]
    {
      assert Placed(env, s.children, a);
    }
  }

  // ---- when a success is possible

  /** The destination and every router of a list resolve. */
  ghost predicate Resolves(names: Names, ts: seq<string>) {
    forall i :: 0 <= i < |ts| && i != 1 ==> ts[i] in names
  }

  /** The port number n, counting from 0, of those from p on that are not to be used. */
  function FreePort(avoid: set<nat>, p: nat, n: nat): (r: nat)
    ensures p + n <= r <= p + n + |avoid| && r !in avoid
    decreases n, |avoid|
  {
    if p in avoid then
      assert |avoid - {p}| == |avoid| - 1;
      FreePort(avoid - {p}, p + 1, n)
    else if n == 0 then p
    else FreePort(avoid, p + 1, n - 1)
  }

  lemma {:induction false} FreePortRises(avoid: set<nat>, p: nat, n: nat)
    ensures FreePort(avoid, p, n) < FreePort(avoid, p, n + 1)
    decreases n, |avoid|
  {
    if p in avoid {
      assert |avoid - {p}| == |avoid| - 1;
      FreePortRises(avoid - {p}, p + 1, n);
    } else if n > 0 {
      FreePortRises(avoid, p + 1, n - 1);
    }
  }

  /** A port for the process that holds n names. */
  function PortFor(avoid: set<nat>, n: nat): (p: nat)
    ensures n <= p <= n + |avoid| && p !in avoid
  {
    FreePort(avoid, 0, n)
  }

  /** Different for different n. */
  lemma {:induction false} PortForRises(avoid: set<nat>, m: nat, n: nat)
    requires m < n
    ensures PortFor(avoid, m) < PortFor(avoid, n)
  {
    FreePortRises(avoid, 0, n - 1);
    if m < n - 1 {
      PortForRises(avoid, m, n - 1);
    }
  }

  /** Each process has the port for the number of its names. */
  ghost predicate ByLength(s: State, avoid: set<nat>) {
    forall a :: a in s.children ==> a.port == PortFor(avoid, |s.children[a].tokens|)
  }

  /** Processes so far were opened for longer lists. */
  ghost predicate RoomBelow(s: State, n: nat) {
    forall a :: a in s.children ==> |s.children[a].tokens| > n
  }

  ghost predicate CarriesPort(r: Reply) {
    exists p :: 1 <= p < PORTS && r.text == PortText(p)
  }

  /** A request on its way that can be served, each process on a port that is not to be avoided. */
  ghost predicate Servable(env: Env, s: State, req: Request, avoid: set<nat>) {
    var ts := Tokens(req.text);
    && req in s.requests && |ts| >= 3 && |ts| + |avoid| < PORTS && Resolves(env.names, ts)
    && ByLength(s, avoid) && RoomBelow(s, |ts|) && env.builder.port in avoid
  }

  lemma SpawnFor(env: Env, s: State, req: Request, avoid: set<nat>) returns (self: Addr, s1: State)
    requires Servable(env, s, req, avoid)
    ensures self == Addr(req.dstHost, PortFor(avoid, |Tokens(req.text)|)) && self !in s.children
    ensures Steps(env)(s, s1) && ByLength(s1, avoid)
    ensures var o := Open(env.names, req, self);
            s1 == s.(children := s.children[self := o.child],
                     requests := s.requests + AsSet(o.forward), replies := s.replies + AsSet(o.answer))
  {
    var n := |Tokens(req.text)|;
    var port := PortFor(avoid, n);
    self := Addr(req.dstHost, port);
    if self in s.children {
      PortForRises(avoid, n, |s.children[self].tokens|);
      assert false;
    }
    var o := Open(env.names, req, self);
    s1 := s.(children := s.children[self := o.child],
             requests := s.requests + AsSet(o.forward), replies := s.replies + AsSet(o.answer));
    assert Next(env, s, Spawn(req, port), s1);
  }

  lemma ForwardServable(env: Env, s: State, req: Request, avoid: set<nat>, self: Addr, s1: State)
    requires Servable(env, s, req, avoid) && |Tokens(req.text)| > 3
    requires self !in s.children && ByLength(s1, avoid)
    requires var o := Open(env.names, req, self);
             s1 == s.(children := s.children[self := o.child],
                      requests := s.requests + AsSet(o.forward), replies := s.replies + AsSet(o.answer))
    ensures var o := Open(env.names, req, self);
            && o.forward.Some? && o.forward.value.src == self && Servable(env, s1, o.forward.value, avoid)
            && |Tokens(o.forward.value.text)| == |Tokens(req.text)| - 1
  {
    ForwardedNames(env.names, req, self);
    var ts := Tokens(req.text);
    assert ts[|ts| - 2] in env.names;
  }

  /** Every process there was is there as it was. */
  ghost predicate Undisturbed(m: map<Addr, Child>, m': map<Addr, Child>) {
    forall a :: a in m ==> a in m' && m'[a] == m[a]
  }

  lemma HearFor(env: Env, s: State, self: Addr, inner: Reply, avoid: set<nat>) returns (s': State, answer: Reply)
    requires ByLength(s, avoid) && self in s.children && s.children[self].mode == Waiting && 1 <= self.port < PORTS
    requires |s.children[self].tokens| >= 2 && s.children[self].tokens[|s.children[self].tokens| - 2] in env.names
    requires inner in s.replies && inner.dst == self && CarriesPort(inner)
    ensures Steps(env)(s, s') && ByLength(s', avoid)
    ensures s'.outcome == s.outcome && s'.replies == s.replies + {answer}
    ensures Undisturbed(s.children - {self}, s'.children)
    ensures answer.dst == s.children[self].upstream && CarriesPort(answer)
  {
    var p :| 1 <= p < PORTS && inner.text == PortText(p);
    HearPort(env.names, s.children[self], self, p);
    var (c, out) := Hear(env.names, s.children[self], self, inner.text);
    s' := s.(children := s.children[self := c], replies := s.replies + AsSet(out));
    answer := out.value;
    assert Next(env, s, Response(self, inner), s');
  }

  /** The process for the last name answers at once. */
  lemma LastAnswers(env: Env, s: State, req: Request, avoid: set<nat>) returns (s': State, answer: Reply)
    requires Servable(env, s, req, avoid) && |Tokens(req.text)| == 3
    ensures Reaches(env, s, s')
    ensures s'.outcome == s.outcome && ByLength(s', avoid) && Undisturbed(s.children, s'.children)
    ensures answer in s'.replies && answer.dst == req.src && CarriesPort(answer)
  {
    var self, s1 := SpawnFor(env, s, req, avoid);
    Paths.ReachesSelf(Steps(env), s1);
    Paths.StepThenReach(Steps(env), s, s1, s1);
    s', answer := s1, Reply(self, req.src, PortText(self.port));
  }

  /** From any state in which a servable request is on its way, its answer can be produced without disturbing
      what is there. */
  lemma {:induction false} AnswerCanBeProduced(env: Env, s: State, req: Request, avoid: set<nat>)
    returns (s': State, answer: Reply)
    requires Servable(env, s, req, avoid)
    ensures Reaches(env, s, s')
    ensures s'.outcome == s.outcome && ByLength(s', avoid) && Undisturbed(s.children, s'.children)
    ensures answer in s'.replies && answer.dst == req.src && CarriesPort(answer)
    decreases |Tokens(req.text)|
  {
    if |Tokens(req.text)| == 3 {
      s', answer := LastAnswers(env, s, req, avoid);
    } else {
      var self, s1 := SpawnFor(env, s, req, avoid);
      var o := Open(env.names, req, self);
      ForwardServable(env, s, req, avoid, self, s1);
      var s2, inner := AnswerCanBeProduced(env, s1, o.forward.value, avoid);
      assert s1.children[self] == o.child;
      s', answer := HearFor(env, s2, self, inner, avoid);
      Paths.ReachThenStep(Steps(env), s1, s2, s');
      Paths.StepThenReach(Steps(env), s, s1, s');
      UndisturbedOver(s.children, s1.children, self, s2.children, s'.children);
    }
  }

  lemma UndisturbedOver(m: map<Addr, Child>, m1: map<Addr, Child>, self: Addr, m2: map<Addr, Child>, m3: map<Addr, Child>)
    requires self !in m && self in m1 && m1 == m[self := m1[self]]
    requires Undisturbed(m1, m2) && Undisturbed(m2 - {self}, m3)
    ensures Undisturbed(m, m3)
  {
    forall a | a in m
      ensures a in m3 && m3[a] == m[a]
    {
      assert a in m1 && a in m2 && a in m2 - {self};
    }
  }

  /** If everything resolves, a run gives the builder a port, with every process on a port that is not to be avoided. */
  lemma CanGetAPort(env: Env, s0: State, avoid: set<nat>) returns (s: State)
    requires Init(env, s0) && Resolves(env.names, env.route)
    requires env.builder.port in avoid && |env.route| + |avoid| < PORTS
    ensures Reaches(env, s0, s) && s.outcome.Success? && ByLength(s, avoid)
  {
    RouteRoundTripIff(env.route);
    var req := Request(env.builder, env.names[Last(env.route)], Encode(env.route));
    var s1, answer := AnswerCanBeProduced(env, s0, req, avoid);
    var p :| 1 <= p < PORTS && answer.text == PortText(p);
    PortRoundTrip(p);
    assert PortOf(answer.text) == p;
    s := s1.(outcome := Success(p));
    assert Next(env, s1, BuilderHears(answer), s);
    Paths.ReachThenStep(Steps(env), s0, s1, s);
  }

  /** The last hop of a chain relays to the port that the second name of the route spells. */
  lemma ChainEndsAtPort(env: Env, children: map<Addr, Child>, hops: seq<Addr>, p: nat)
    requires IsChain(env, children, env.route, hops) && Spells(env.route[1], p)
    ensures children[hops[|hops| - 1]].mode.next == Addr(env.names[env.route[0]], p % 65536)
  {
    PortSpelled(env.route[1], p);
  }

  /** A chain leads over names that resolve. */
  lemma ChainResolves(env: Env, children: map<Addr, Child>, hops: seq<Addr>)
    requires IsChain(env, children, env.route, hops)
    ensures Resolves(env.names, env.route)
  {
    forall i | 0 <= i < |env.route| && i != 1
      ensures env.route[i] in env.names
    {
      if i >= 2 {
        assert hops[|env.route| - 1 - i] in children;
      }
    }
  }

  /** Some run gives the builder a port. */
  ghost predicate CanSucceed(env: Env, s0: State) {
    exists s :: Reaches(env, s0, s) && s.outcome.Success?
  }

  /** Set-up can succeed exactly when the destination and every router on the route resolve. */
  lemma SetupSucceedsIff(env: Env, s0: State)
    requires Init(env, s0) && |env.route| + 1 < PORTS
    ensures CanSucceed(env, s0) <==> Resolves(env.names, env.route)
  {
    if CanSucceed(env, s0) {
      var s :| Reaches(env, s0, s) && s.outcome.Success?;
      var hops := SuccessMeansLinkedPath(env, s0, s);
      ChainResolves(env, s.children, hops);
    }
    if Resolves(env.names, env.route) {
      var s := CanGetAPort(env, s0, {env.builder.port});
    }
  }
}
