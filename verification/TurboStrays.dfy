/** How a client can be made to finish with something else than the file: an array that names a number past the last block
    brings an empty datagram, at which the client reads past its buffer. */
module TurboStrays {
  import opened Arithmetic
  import opened Frame
  import opened Blocks
  import opened LossInjector
  import opened TurboClient
  import opened TurboProtocol
  import opened TurboProgress
  import opened TurboOutcome
  import opened TurboSessions
  import Paths
  import Server = TurboServer

  // ---- a read past the buffer

  /** Memory beyond the buffer that holds a bar and then these bytes hands them to the client as the first block. */
  lemma BeyondIsTaken(cfg: Config, data: seq<Byte>)
    requires cfg.Valid() && |data| == cfg.bs
    ensures var memory := Untouched(cfg, [BAR] + data);
            Placeable(cfg, memory) && DecodedSeq(memory) == 0 && DecodedData(memory, cfg.bs) == data
  {
    var memory, k := Untouched(cfg, [BAR] + data), cfg.bs + HEADER_SIZE;
    EmptyReadsAsBlockZero(cfg, [BAR] + data);
    TotalBounds(cfg);
    assert memory[..k] == Zeros(k) && memory[k] == BAR;
    FirstBarIs(memory, k);
    assert memory[k + 1..k + 1 + cfg.bs] == data;
  }

  lemma TakesEmpty(inp: Server.Input, s: State, beyond: seq<Byte>) returns (s': State)
    requires Server.Shaped(inp, s.server) && Shaped(inp.cfg, s.client) && !s.client.finished
    requires [] in s.server.line.wire && Placeable(inp.cfg, Untouched(inp.cfg, beyond))
    ensures Steps(inp)(s, s') && s' == s.(client := AfterFrame(inp.cfg, s.client, Untouched(inp.cfg, beyond)))
  {
    s' := s.(client := AfterFrame(inp.cfg, s.client, Untouched(inp.cfg, beyond)));
    assert Next(inp, s, ReceiveEmpty(beyond), s');
  }

  /** The first block of the client's image is the beginning of data. */
  ghost predicate FirstBlockIs(cfg: Config, c: Client, data: seq<Byte>)
    requires cfg.Valid() && |data| == cfg.bs
  {
    && Shaped(cfg, c) && cfg.Total() >= 1 && 0 <= cfg.BlockLen(0) <= cfg.bs
    && Block(cfg, c.image, 0) == data[..cfg.BlockLen(0)]
  }

  /** An empty datagram at a client without the first block lets it take anything for that block. */
  lemma TakesFirst(inp: Server.Input, s: State, data: seq<Byte>) returns (s': State)
    requires Inv(inp, s) && [] in s.server.line.wire && !s.client.finished && !s.client.rcvd[0] && |data| == inp.cfg.bs
    ensures Steps(inp)(s, s') && Inv(inp, s') && s'.server == s.server
    ensures s'.client.rcvd == s.client.rcvd[0 := true] && FirstBlockIs(inp.cfg, s'.client, data)
  {
    BeyondIsTaken(inp.cfg, data);
    TotalBounds(inp.cfg);
    EmptyClient(inp, s.client, [BAR] + data);
    FrameSetsItsBlock(inp.cfg, s.client, Untouched(inp.cfg, [BAR] + data));
    s' := TakesEmpty(inp, s, [BAR] + data);
  }

  // ---- how the server is made to send an empty datagram

  /** A number past the last block: the first one, or for small arrays one that even a slot that memset has reached in part
      can hold. */
  function Stray(cfg: Config): int
    requires cfg.bs >= 1
  {
    if cfg.bs < 8 then 0xFEFEFE else cfg.Total()
  }

  /** Unused slots with that number in slot k. */
  function StrayAt(cfg: Config, k: nat): seq<int>
    requires cfg.bs >= 1
  {
    var stray := Stray(cfg);
    seq(cfg.bs, i => if i == k then stray else -2)
  }

  /** If k blocks are missing and memset stops before slot k, then the array can name that number right behind them. */
  lemma AsksPastTheEnd(cfg: Config, c: Client, k: nat)
    requires Counted(cfg, c) && !c.finished && k == |Missing(cfg, c.rcvd)| && cfg.bs / 4 <= k < cfg.bs
    ensures Server.QuarterNegative(StrayAt(cfg, k))
    ensures var m := Nack(cfg, c.rcvd, StrayAt(cfg, k));
            && PastTheEnd(cfg, m, k) && m[0] >= 0
            && AfterTimeout(cfg, c, StrayAt(cfg, k)).outbox == c.outbox + [m, m]
  {
    NackIsExact(cfg, c, StrayAt(cfg, k));
    Accounting(cfg, c);
  }

  /** An array that asks for k blocks and then names a number past the last one, and no more. */
  ghost predicate PastTheEnd(cfg: Config, m: seq<int>, k: nat)
    requires cfg.bs >= 1
  {
    && 1 <= k < |m| && (forall i :: 0 <= i < k ==> 0 <= m[i] < cfg.Total())
    && m[k] >= cfg.Total() && (k + 1 < |m| ==> m[k + 1] < 0)
  }

  /** What is sent for it: the answers, then the empty datagram with numbers of its own. */
  lemma EmptyAfterAnswers(inp: Server.Input, l: Line<seq<Byte>>, m: seq<int>, k: nat)
    requires inp.Valid() && PastTheEnd(inp.cfg, m, k)
    ensures SendAll(l, Server.NackAttempts(inp, m, 0)) == Send(SendAll(l, Server.AnswersTo(inp, m[..k])), Attempt([], 10, 9))
  {
    var a, answers := Attempt([], 10, 9), Server.AnswersTo(inp, m[..k]);
    assert m[0..k] == m[..k];
    Server.AnswersComeFirst(inp, m, 0, k);
    assert Server.NackAttempts(inp, m, k) == [a] + Server.NackAttempts(inp, m, k + 1);
    assert Server.NackAttempts(inp, m, k + 1) == [];
    assert [a] + [] == [a];
    SendAllAppend(l, answers, [a]);
    SendAllOne(SendAll(l, answers), a);
  }

  lemma AnswersUniform(inp: Server.Input, asked: seq<int>)
    requires inp.Valid() && forall i :: 0 <= i < |asked| ==> 0 <= asked[i] < inp.cfg.Total()
    ensures Uniform(Server.AnswersTo(inp, asked), inp.lossNum)
  {
  }

  // ---- when an empty datagram passes the injector

  /** The counters n calls with the server's own numbers later. */
  function Calls(c: Counters, n: nat, lossNum: int): Counters {
    Later(c, n, Server.TOTAL_NUM, lossNum)
  }

  lemma {:induction false} CallsAdd(c: Counters, a: nat, b: nat, lossNum: int)
    ensures Calls(Calls(c, a, lossNum), b, lossNum) == Calls(c, a + b, lossNum)
  {
    if b > 0 {
      CallsAdd(c, a, b - 1, lossNum);
    }
  }

  lemma {:induction false} SendAllCalls(l: Line<seq<Byte>>, attempts: seq<Attempt<seq<Byte>>>, lossNum: int)
    requires Uniform(attempts, lossNum)
    ensures SendAll(l, attempts).counters == Calls(l.counters, |attempts|, lossNum)
    decreases |attempts|
  {
    if attempts != [] {
      SendAllCalls(Send(l, attempts[0]), attempts[1..], lossNum);
      LaterFirst(l.counters, |attempts| - 1, Server.TOTAL_NUM, lossNum);
    }
  }

  lemma {:induction false} CallsStart(c: Counters, n: nat, lossNum: int)
    requires CountersStart(c, lossNum)
    ensures CountersStart(Calls(c, n, lossNum), lossNum)
  {
    if n > 0 {
      CallsStart(c, n - 1, lossNum);
    }
  }

  /** The place of such counters in their cycle, for a positive loss number. */
  function Place(c: Counters): int {
    if c.packet < Server.TOTAL_NUM then c.packet - 1 else Server.TOTAL_NUM - 2 + c.loss
  }

  lemma {:induction false} CallsClosedForm(c: Counters, n: nat, lossNum: int)
    requires lossNum >= 1 && CountersOk(c, lossNum)
    ensures 0 <= Place(c) && 0 <= (Place(c) + n) % Period(Server.TOTAL_NUM, lossNum) < Period(Server.TOTAL_NUM, lossNum)
    ensures Calls(c, n, lossNum) == InCycle((Place(c) + n) % Period(Server.TOTAL_NUM, lossNum), Server.TOTAL_NUM)
  {
    var p := Period(Server.TOTAL_NUM, lossNum);
    if n > 0 {
      CallsClosedForm(c, n - 1, lossNum);
      NextInCycle(Place(c) + n - 1, p);
      StepInCycle((Place(c) + n - 1) % p, Server.TOTAL_NUM, lossNum);
    } else {
      DivModUnique(Place(c), 0, Place(c), p);
    }
  }

  lemma {:induction false} CallsUpwards(c: Counters, n: nat, lossNum: int)
    requires lossNum <= 0 && CountersStart(c, lossNum)
    ensures Calls(c, n, lossNum).packet
         == if c.packet + n < Server.TOTAL_NUM then c.packet + n else Server.TOTAL_NUM
    ensures CountersStart(Calls(c, n, lossNum), lossNum)
  {
    if n > 0 {
      CallsUpwards(c, n - 1, lossNum);
    }
  }

  /** How many requests to add to k to be at another place in the cycle after them. */
  function Extra(k: nat, lossNum: int): nat {
    if lossNum >= 1 && k % Period(Server.TOTAL_NUM, lossNum) == 0 then 1 else 0
  }

  lemma ElsewhereInCycle(a: nat, k: nat, p: nat)
    requires p >= 1000 && a % p == 9
    ensures k % p == 0 ==> (a + (k + 1)) % p == 10
    ensures k % p != 0 ==> (a + k) % p != 9
  {
    DivModUnique(1, 0, 1, p);
    ModAdd(k, 1, p);
    ModAdd(a, k, p);
    ModAdd(a, k + 1, p);
  }

  /** If k calls lead to a first counter of 10, then k and Extra(k) and again k calls do not. */
  lemma NotTenLater(c: Counters, k: nat, lossNum: int)
    requires CountersStart(c, lossNum) && k >= 1 && Calls(c, k, lossNum).packet == 10
    ensures Calls(Calls(c, k + Extra(k, lossNum), lossNum), k, lossNum).packet != 10
  {
    CallsAdd(c, k + Extra(k, lossNum), k, lossNum);
    if lossNum >= 1 {
      CallsClosedForm(c, k, lossNum);
      CallsClosedForm(c, k + Extra(k, lossNum) + k, lossNum);
      ElsewhereInCycle(Place(c) + k, k, Period(Server.TOTAL_NUM, lossNum));
    } else {
      CallsUpwards(c, k, lossNum);
      CallsUpwards(c, k + k, lossNum);
    }
  }

  /** Only a first counter of 10 stops an empty datagram; otherwise at most that counter changes. */
  lemma EmptyPassesUnlessTen(l: Line<seq<Byte>>, lossNum: int)
    requires CountersStart(l.counters, lossNum) && l.counters.packet != 10
    ensures [] in Send(l, Attempt([], 10, 9)).wire && CountersStart(Send(l, Attempt([], 10, 9)).counters, lossNum)
  {
  }

  /** The array gets an empty datagram through if k answers do not lead to a first counter of 10. */
  lemma EmptyPasses(inp: Server.Input, l: Line<seq<Byte>>, m: seq<int>, k: nat)
    requires inp.Valid() && PastTheEnd(inp.cfg, m, k) && CountersStart(l.counters, inp.lossNum)
    requires Calls(l.counters, k, inp.lossNum).packet != 10
    ensures var l' := SendAll(l, Server.NackAttempts(inp, m, 0));
            [] in l'.wire && CountersStart(l'.counters, inp.lossNum)
  {
    var answers := Server.AnswersTo(inp, m[..k]);
    AnswersUniform(inp, m[..k]);
    SendAllCalls(l, answers, inp.lossNum);
    CallsStart(l.counters, k, inp.lossNum);
    EmptyAfterAnswers(inp, l, m, k);
    EmptyPassesUnlessTen(SendAll(l, answers), inp.lossNum);
  }

  // ---- the two sides

  /** The server receives an array. */
  lemma Handle(inp: Server.Input, s: State, m: seq<int>) returns (s': State)
    requires Inv(inp, s) && s.server.fileSent && !s.server.exited && m in s.client.outbox && |m| >= 1 && m[0] >= 0
    ensures Steps(inp)(s, s') && Inv(inp, s')
    ensures s' == s.(server := s.server.(line := SendAll(s.server.line, Server.NackAttempts(inp, m, 0))))
  {
    ControlStepFaithful(inp, s.server, m, s.client);
    s' := s.(server := Server.AfterControl(inp, s.server, m));
    assert Next(inp, s, HandleControl(m), s');
    NextInv(inp, s, HandleControl(m), s');
  }

  /** The client times out. */
  lemma TimesOut(inp: Server.Input, s: State, leftover: seq<int>) returns (m: seq<int>, s': State)
    requires Inv(inp, s) && !s.client.finished && |leftover| == inp.cfg.bs && Server.QuarterNegative(leftover)
    ensures Steps(inp)(s, s') && Inv(inp, s') && s' == s.(client := s.client.(outbox := s'.client.outbox))
    ensures m == Nack(inp.cfg, s.client.rcvd, leftover) && m in s'.client.outbox && s.client.outbox <= s'.client.outbox
  {
    NackIsExact(inp.cfg, s.client, leftover);
    Accounting(inp.cfg, s.client);
    m := Nack(inp.cfg, s.client.rcvd, leftover);
    s' := s.(client := AfterTimeout(inp.cfg, s.client, leftover));
    assert Next(inp, s, Timeout(leftover), s');
    NextInv(inp, s, Timeout(leftover), s');
    assert s'.client.outbox[|s.client.outbox|] == m;
  }

  /** Unused slots that ask for the first `extra` blocks once more, and no others. */
  function Repeats(cfg: Config, k: nat, extra: nat): seq<int> {
    seq(cfg.bs, i => if k <= i < k + extra then 0 else -2)
  }

  lemma RepeatsAsk(inp: Server.Input, c: Client, k: nat, extra: nat)
    requires inp.Valid() && Counted(inp.cfg, c) && !c.finished && k == Asked(inp.cfg, c.rcvd)
    requires inp.cfg.bs / 4 <= k || extra == 0
    requires k + extra <= inp.cfg.bs
    ensures Server.QuarterNegative(Repeats(inp.cfg, k, extra))
    ensures var m := Nack(inp.cfg, c.rcvd, Repeats(inp.cfg, k, extra));
            m[..k] == Missing(inp.cfg, c.rcvd)[..k] && m[0] >= 0 && AsksFor(inp, m, k + extra)
  {
    TotalBounds(inp.cfg);
    NackIsExact(inp.cfg, c, Repeats(inp.cfg, k, extra));
    Server.NackAnswersAreExact(inp, Nack(inp.cfg, c.rcvd, Repeats(inp.cfg, k, extra)), k + extra);
  }

  /** The client asks for what it lacks, and perhaps for the first block once more. */
  lemma AskMore(inp: Server.Input, s: State, extra: nat) returns (m: seq<int>, s': State)
    requires Inv(inp, s) && !s.client.finished && inp.cfg.bs / 4 <= |Missing(inp.cfg, s.client.rcvd)| < inp.cfg.bs && extra <= 1
    ensures Steps(inp)(s, s') && Inv(inp, s') && s' == s.(client := s.client.(outbox := s'.client.outbox))
    ensures m in s'.client.outbox && s.client.outbox <= s'.client.outbox
    ensures m != [] && m[0] >= 0 && AsksFor(inp, m, |Missing(inp.cfg, s.client.rcvd)| + extra)
  {
    var k := |Missing(inp.cfg, s.client.rcvd)|;
    RepeatsAsk(inp, s.client, k, extra);
    m, s' := TimesOut(inp, s, Repeats(inp.cfg, k, extra));
  }

  /** Some calls take the injector to another place. */
  lemma Shift(inp: Server.Input, s: State, extra: nat) returns (s': State)
    requires Inv(inp, s) && s.server.fileSent && !s.server.exited && !s.client.finished
    requires inp.cfg.bs / 4 <= |Missing(inp.cfg, s.client.rcvd)| < inp.cfg.bs && extra <= 1
    ensures Reaches(inp, s, s') && Inv(inp, s') && s.server.line.wire <= s'.server.line.wire
    ensures s'.client == s.client.(outbox := s'.client.outbox) && s.client.outbox <= s'.client.outbox
    ensures s'.server == s.server.(line := s'.server.line)
    ensures s'.server.line.counters
         == Calls(s.server.line.counters, |Missing(inp.cfg, s.client.rcvd)| + extra, inp.lossNum)
  {
    var m, s1 := AskMore(inp, s, extra);
    CallsFor(inp, s.server.line, m, |Missing(inp.cfg, s.client.rcvd)| + extra);
    s' := Handle(inp, s1, m);
    ThenStep(inp, s, s1, s');
  }

  lemma CallsFor(inp: Server.Input, l: Line<seq<Byte>>, m: seq<int>, n: nat)
    requires inp.Valid() && AsksFor(inp, m, n)
    ensures var l' := SendAll(l, Server.NackAttempts(inp, m, 0));
            l'.counters == Calls(l.counters, n, inp.lossNum) && l.wire <= l'.wire
  {
    AnswersUniform(inp, m[..n]);
    SendAllCalls(l, Server.AnswersTo(inp, m[..n]), inp.lossNum);
    SendAllExtends(l, Server.AnswersTo(inp, m[..n]));
  }

  lemma ThenStep(inp: Server.Input, s: State, s1: State, s2: State)
    requires Steps(inp)(s, s1) && Steps(inp)(s1, s2)
    ensures Reaches(inp, s, s2)
  {
    Paths.ReachesSelf(Steps(inp), s);
    Paths.ReachThenStep(Steps(inp), s, s, s1);
    Paths.ReachThenStep(Steps(inp), s, s1, s2);
  }

  /** A server in its loop can be made to send an empty datagram, without any change to the client but in what it has sent. */
  lemma AskedBeyond(inp: Server.Input, s: State) returns (s': State)
    requires Inv(inp, s) && s.server.fileSent && !s.server.exited && !s.client.finished
    requires inp.cfg.bs / 4 <= |Missing(inp.cfg, s.client.rcvd)| < inp.cfg.bs
    requires CountersStart(s.server.line.counters, inp.lossNum)
    ensures Reaches(inp, s, s') && Inv(inp, s') && [] in s'.server.line.wire && s.server.line.wire <= s'.server.line.wire
    ensures s'.client == s.client.(outbox := s'.client.outbox) && s'.server.fileSent && !s'.server.exited
    ensures CountersStart(s'.server.line.counters, inp.lossNum)
  {
    var k := |Missing(inp.cfg, s.client.rcvd)|;
    AsksPastTheEnd(inp.cfg, s.client, k);
    var m, s1 := TimesOut(inp, s, StrayAt(inp.cfg, k));
    var s2 := Placed(inp, s1, k);
    s' := SendsEmpty(inp, s2, m, k);
    Paths.StepThenReach(Steps(inp), s, s1, s2);
    Paths.ReachTrans(Steps(inp), s, s2, s');
  }

  /** The injector can be brought to where k calls do not lead to 10. */
  lemma Placed(inp: Server.Input, s: State, k: nat) returns (s': State)
    requires Inv(inp, s) && s.server.fileSent && !s.server.exited && !s.client.finished
    requires k == |Missing(inp.cfg, s.client.rcvd)| && 1 <= k && inp.cfg.bs / 4 <= k < inp.cfg.bs
    requires CountersStart(s.server.line.counters, inp.lossNum)
    ensures Reaches(inp, s, s') && Inv(inp, s') && s.server.line.wire <= s'.server.line.wire
    ensures s'.client == s.client.(outbox := s'.client.outbox) && s.client.outbox <= s'.client.outbox
    ensures s'.server == s.server.(line := s'.server.line) && CountersStart(s'.server.line.counters, inp.lossNum)
    ensures Calls(s'.server.line.counters, k, inp.lossNum).packet != 10
  {
    if Calls(s.server.line.counters, k, inp.lossNum).packet != 10 {
      Paths.ReachesSelf(Steps(inp), s);
      s' := s;
    } else {
      s' := Shift(inp, s, Extra(k, inp.lossNum));
      NotTenLater(s.server.line.counters, k, inp.lossNum);
      CallsStart(s.server.line.counters, k + Extra(k, inp.lossNum), inp.lossNum);
    }
  }

  lemma SendsEmpty(inp: Server.Input, s: State, m: seq<int>, k: nat) returns (s': State)
    requires Inv(inp, s) && s.server.fileSent && !s.server.exited && m in s.client.outbox
    requires PastTheEnd(inp.cfg, m, k) && CountersStart(s.server.line.counters, inp.lossNum)
    requires Calls(s.server.line.counters, k, inp.lossNum).packet != 10
    ensures Reaches(inp, s, s') && Inv(inp, s') && [] in s'.server.line.wire && s.server.line.wire <= s'.server.line.wire
    ensures s'.client == s.client && s'.server.fileSent && !s'.server.exited
    ensures CountersStart(s'.server.line.counters, inp.lossNum)
  {
    EmptyPasses(inp, s.server.line, m, k);
    SendAllExtends(s.server.line, Server.NackAttempts(inp, m, 0));
    s' := Handle(inp, s, m);
    Paths.ReachesSelf(Steps(inp), s);
    Paths.ReachThenStep(Steps(inp), s, s, s');
  }

  // ---- how the client gets what it lacks, but for the first block

  /** Every frame of the first pass is on the wire. */
  ghost predicate AllOut(inp: Server.Input, wire: seq<seq<Byte>>)
    requires inp.Valid()
  {
    forall j :: 0 <= j < inp.cfg.Total() ==> Server.PassFrame(inp, j) in wire
  }

  /** It is if all blocks fit before the injector's next drop. */
  lemma {:induction false} AllGoOut(inp: Server.Input, l: Line<seq<Byte>>, j: nat)
    requires inp.Valid() && j <= inp.cfg.Total() && l.counters.packet + (inp.cfg.Total() - j) <= Server.TOTAL_NUM
    requires forall i :: 0 <= i < j ==> Server.PassFrame(inp, i) in l.wire
    ensures AllOut(inp, SendAll(l, Server.PassAttempts(inp, j)).wire)
    decreases inp.cfg.Total() - j
  {
    var attempts := Server.PassAttempts(inp, j);
    if j < inp.cfg.Total() {
      assert attempts[1..] == Server.PassAttempts(inp, j + 1);
      var l1 := Send(l, attempts[0]);
      assert l1.wire == l.wire + [Server.PassFrame(inp, j)];
      AllGoOut(inp, l1, j + 1);
    } else {
      SendAllExtends(l, attempts);
    }
  }

  /** The client receives a frame that it lacks. */
  lemma HearFrame(inp: Server.Input, s: State, f: seq<Byte>) returns (s': State)
    requires Inv(inp, s) && !s.client.finished && f in s.server.line.wire
    requires Faithful(inp.cfg, inp.File(), f) && !s.client.rcvd[DecodedSeq(f)]
    ensures Steps(inp)(s, s') && Inv(inp, s') && s'.server == s.server && s'.client.rcvd == s.client.rcvd[DecodedSeq(f) := true]
    ensures |Missing(inp.cfg, s'.client.rcvd)| == |Missing(inp.cfg, s.client.rcvd)| - 1
    ensures forall i :: 0 <= i < inp.cfg.Total() && i != DecodedSeq(f) ==>
              Block(inp.cfg, s'.client.image, i) == Block(inp.cfg, s.client.image, i)
  {
    FrameSetsItsBlock(inp.cfg, s.client, f);
    ClearSetBit(s.client.rcvd, DecodedSeq(f), 0, inp.cfg.Total());
    s' := s.(client := AfterFrame(inp.cfg, s.client, f));
    assert Next(inp, s, ReceiveFrame(f), s');
    NextInv(inp, s, ReceiveFrame(f), s');
  }

  /** How many calls at most a burst that is on, or about to begin, still lasts. */
  function Wait(c: Counters, lossNum: int): int {
    if c.packet == Server.TOTAL_NUM then BurstLeft(c, lossNum)
    else if c.packet == Server.TOTAL_NUM - 1 then lossNum + 1 else 0
  }

  /** If nothing of a list goes out, then its calls are all of one burst. */
  lemma {:induction false} AllSwallowed(l: Line<seq<Byte>>, attempts: seq<Attempt<seq<Byte>>>, lossNum: int)
    requires CountersOk(l.counters, lossNum) && Uniform(attempts, lossNum) && attempts != []
    ensures var l' := SendAll(l, attempts);
            && CountersOk(l'.counters, lossNum) && l.wire <= l'.wire
            && (l'.wire == l.wire ==>
                  l.counters.packet == Server.TOTAL_NUM
                  && Wait(l'.counters, lossNum) == BurstLeft(l.counters, lossNum) - |attempts| >= 0)
    decreases |attempts|
  {
    var l1 := Send(l, attempts[0]);
    SendExtends(l, attempts[0]);
    if |attempts| == 1 {
      assert attempts[1..] == [];
    } else {
      AllSwallowed(l1, attempts[1..], lossNum);
    }
  }

  /** What is new on the wire is one of the list. */
  lemma OneWentOut(l: Line<seq<Byte>>, attempts: seq<Attempt<seq<Byte>>>)
    requires SendAll(l, attempts).wire != l.wire
    ensures exists i :: 0 <= i < |attempts| && attempts[i].msg in SendAll(l, attempts).wire
  {
    SendAllExtends(l, attempts);
    var l' := SendAll(l, attempts);
    var f := l'.wire[|l.wire|];
    assert f in l'.wire[|l.wire|..];
    var a :| a in attempts && a.msg == f;
  }

  /** One handling of an array gets an answer from number `from` on through, or shortens the wait. */
  lemma OneHandling(l: Line<seq<Byte>>, answers: seq<Attempt<seq<Byte>>>, lossNum: int, from: nat)
    requires CountersOk(l.counters, lossNum) && Uniform(answers, lossNum) && from < |answers| && from <= 1
    ensures var l' := SendAll(l, answers);
            && CountersOk(l'.counters, lossNum)
            && ((exists i :: from <= i < |answers| && answers[i].msg in l'.wire)
                || 0 <= Wait(l'.counters, lossNum) < Wait(l.counters, lossNum))
  {
    if from == 0 {
      AllSwallowed(l, answers, lossNum);
      if SendAll(l, answers).wire != l.wire {
        OneWentOut(l, answers);
      }
    } else {
      var l1, rest := Send(l, answers[0]), answers[1..];
      AllSwallowed(l1, rest, lossNum);
      if SendAll(l1, rest).wire != l1.wire {
        OneWentOut(l1, rest);
        var i :| 0 <= i < |rest| && rest[i].msg in SendAll(l1, rest).wire;
        assert rest[i] == answers[i + 1];
      }
    }
  }

  /** A server in its loop with a positive loss number. */
  ghost predicate Listens(inp: Server.Input, s: State) {
    && Inv(inp, s) && s.server.fileSent && !s.server.exited
    && inp.lossNum >= 1 && CountersOk(s.server.line.counters, inp.lossNum)
  }

  /** An array that asks for k blocks and no more. */
  ghost predicate AsksFor(inp: Server.Input, m: seq<int>, k: nat)
    requires inp.Valid()
  {
    && 1 <= k <= |m| && (forall x :: 0 <= x < k ==> 0 <= m[x] < inp.cfg.Total())
    && Server.NackAttempts(inp, m, 0) == Server.AnswersTo(inp, m[..k])
  }

  /** An answer to one of its requests from number `from` on is on the wire. */
  ghost predicate OneIsOut(inp: Server.Input, wire: seq<seq<Byte>>, m: seq<int>, k: nat, from: nat)
    requires inp.Valid() && AsksFor(inp, m, k)
  {
    exists i {:trigger m[i]} :: from <= i < k && Server.BlockFrame(inp, m[i]) in wire
  }

  lemma AnswerAt(inp: Server.Input, asked: seq<int>, i: nat)
    requires inp.Valid() && i < |asked| && forall x :: 0 <= x < |asked| ==> 0 <= asked[x] < inp.cfg.Total()
    ensures Server.AnswersTo(inp, asked)[i].msg == Server.BlockFrame(inp, asked[i])
  {
  }

  /** The same for one handling of an array. */
  lemma OneArray(inp: Server.Input, l: Line<seq<Byte>>, m: seq<int>, k: nat, from: nat)
    requires inp.Valid() && AsksFor(inp, m, k) && from < k && from <= 1
    requires inp.lossNum >= 1 && CountersOk(l.counters, inp.lossNum)
    ensures var l' := SendAll(l, Server.NackAttempts(inp, m, 0));
            && CountersOk(l'.counters, inp.lossNum)
            && (OneIsOut(inp, l'.wire, m, k, from)
                || 0 <= Wait(l'.counters, inp.lossNum) < Wait(l.counters, inp.lossNum))
  {
    var asked := m[..k];
    var answers := Server.AnswersTo(inp, asked);
    AnswersUniform(inp, asked);
    OneHandling(l, answers, inp.lossNum, from);
    var wire := SendAll(l, answers).wire;
    if i: nat :| from <= i < |answers| && answers[i].msg in wire {
      AnswerAt(inp, asked, i);
      assert asked[i] == m[i];
    }
  }

  lemma HandledOnce(inp: Server.Input, s: State, m: seq<int>, k: nat, from: nat) returns (s': State)
    requires Listens(inp, s) && m in s.client.outbox && AsksFor(inp, m, k) && from < k && from <= 1
    ensures Steps(inp)(s, s') && Listens(inp, s') && s'.client == s.client
    ensures || OneIsOut(inp, s'.server.line.wire, m, k, from)
            || 0 <= Wait(s'.server.line.counters, inp.lossNum) < Wait(s.server.line.counters, inp.lossNum)
  {
    OneArray(inp, s.server.line, m, k, from);
    s' := Handle(inp, s, m);
  }

  /** An array, handled often enough, gets an answer from number `from` on through. */
  lemma {:induction false} AskedOften(inp: Server.Input, s: State, m: seq<int>, k: nat, from: nat) returns (s': State)
    requires Listens(inp, s) && m in s.client.outbox && AsksFor(inp, m, k) && from < k && from <= 1
    ensures Reaches(inp, s, s') && Listens(inp, s') && s'.client == s.client
    ensures OneIsOut(inp, s'.server.line.wire, m, k, from)
    decreases Wait(s.server.line.counters, inp.lossNum)
  {
    var s1 := HandledOnce(inp, s, m, k, from);
    if OneIsOut(inp, s1.server.line.wire, m, k, from) {
      s' := s1;
      Paths.ReachesSelf(Steps(inp), s1);
    } else {
      s' := AskedOften(inp, s1, m, k, from);
    }
    Paths.StepThenReach(Steps(inp), s, s1, s');
  }

  /** A state in which blocks can still be got: with a positive loss number by asking, otherwise because all is out. */
  ghost predicate Supplied(inp: Server.Input, s: State)
    requires inp.Valid()
  {
    && s.server.fileSent && !s.server.exited
    && (if inp.lossNum >= 1 then CountersOk(s.server.line.counters, inp.lossNum) else AllOut(inp, s.server.line.wire))
  }

  /** Nothing of the first block has changed. */
  ghost predicate FirstKept(cfg: Config, c: Client, c': Client) {
    && Shaped(cfg, c) && Shaped(cfg, c') && cfg.Total() >= 1
    && c'.rcvd[0] == c.rcvd[0] && Block(cfg, c'.image, 0) == Block(cfg, c.image, 0)
  }

  /** The list of missing blocks has the first one in front, if that is missing. */
  lemma MissingAfterFirst(cfg: Config, rcvd: seq<bool>, i: nat)
    requires cfg.Valid() && cfg.Total() <= |rcvd| && i < |Missing(cfg, rcvd)| && cfg.Total() >= 1
    requires rcvd[0] || i >= 1
    ensures var j := Missing(cfg, rcvd)[i]; 1 <= j < cfg.Total() && !rcvd[j]
  {
    MissingIsExact(cfg, rcvd);
    var missing := Missing(cfg, rcvd);
    assert missing[i] in missing;
    assert i >= 1 ==> missing[0] < missing[i];
  }

  /** One block more, from what is out. */
  lemma HearOneOut(inp: Server.Input, s: State) returns (s': State)
    requires Inv(inp, s) && AllOut(inp, s.server.line.wire) && !s.client.finished && inp.cfg.Total() >= 1
    requires s.client.rcvd[0] || |Missing(inp.cfg, s.client.rcvd)| >= 2
    ensures Steps(inp)(s, s') && Inv(inp, s') && s'.server == s.server && FirstKept(inp.cfg, s.client, s'.client)
    ensures |Missing(inp.cfg, s'.client.rcvd)| == |Missing(inp.cfg, s.client.rcvd)| - 1
  {
    Accounting(inp.cfg, s.client);
    var i := if s.client.rcvd[0] then 0 else 1;
    MissingAfterFirst(inp.cfg, s.client.rcvd, i);
    var j := Missing(inp.cfg, s.client.rcvd)[i];
    Server.PassFrameIsFaithful(inp, j);
    s' := HearFrame(inp, s, Server.PassFrame(inp, j));
  }

  /** A block that is missing, and not the first, can be got on the wire by asking. */
  lemma GetsOut(inp: Server.Input, s: State) returns (s': State, j: nat)
    requires Listens(inp, s) && !s.client.finished && inp.cfg.Total() >= 1
    requires s.client.rcvd[0] || (|Missing(inp.cfg, s.client.rcvd)| >= 2 && inp.cfg.bs >= 2)
    ensures Reaches(inp, s, s') && Listens(inp, s') && s'.client == s.client.(outbox := s'.client.outbox)
    ensures 1 <= j < inp.cfg.Total() && !s.client.rcvd[j] && Server.BlockFrame(inp, j) in s'.server.line.wire
  {
    var k, from := Asked(inp.cfg, s.client.rcvd), if s.client.rcvd[0] then 0 else 1;
    Accounting(inp.cfg, s.client);
    RepeatsAsk(inp, s.client, k, 0);
    var m, s1 := TimesOut(inp, s, Repeats(inp.cfg, k, 0));
    s' := AskedOften(inp, s1, m, k, from);
    j := OneThatIsOut(inp, s.client.rcvd, s'.server.line.wire, m, k, from);
    Paths.StepThenReach(Steps(inp), s, s1, s');
  }

  lemma OneThatIsOut(inp: Server.Input, rcvd: seq<bool>, wire: seq<seq<Byte>>, m: seq<int>, k: nat, from: nat) returns (j: nat)
    requires inp.Valid() && inp.cfg.Total() <= |rcvd| && inp.cfg.Total() >= 1 && AsksFor(inp, m, k)
    requires k <= |Missing(inp.cfg, rcvd)| && m[..k] == Missing(inp.cfg, rcvd)[..k]
    requires (rcvd[0] || from >= 1) && OneIsOut(inp, wire, m, k, from)
    ensures 1 <= j < inp.cfg.Total() && !rcvd[j] && Server.BlockFrame(inp, j) in wire
  {
    var i: nat :| from <= i < k && Server.BlockFrame(inp, m[i]) in wire;
    MissingAfterFirst(inp.cfg, rcvd, i);
    SameAt(m, Missing(inp.cfg, rcvd), k, i);
    j := m[i];
  }

  lemma SameAt(a: seq<int>, b: seq<int>, k: nat, i: nat)
    requires i < k <= |a| && k <= |b| && a[..k] == b[..k]
    ensures a[i] == b[i]
  {
    assert a[..k][i] == b[..k][i];
  }

  /** One block more, by asking. */
  lemma HearOneAsked(inp: Server.Input, s: State) returns (s': State)
    requires Listens(inp, s) && !s.client.finished && inp.cfg.Total() >= 1
    requires s.client.rcvd[0] || (|Missing(inp.cfg, s.client.rcvd)| >= 2 && inp.cfg.bs >= 2)
    ensures Reaches(inp, s, s') && Listens(inp, s') && FirstKept(inp.cfg, s.client, s'.client)
    ensures |Missing(inp.cfg, s'.client.rcvd)| == |Missing(inp.cfg, s.client.rcvd)| - 1
  {
    var s1, j := GetsOut(inp, s);
    Server.BlockFrameIsFaithful(inp, j);
    s' := HearFrame(inp, s1, Server.BlockFrame(inp, j));
    Paths.ReachThenStep(Steps(inp), s, s1, s');
  }

  lemma HearOne(inp: Server.Input, s: State) returns (s': State)
    requires Inv(inp, s) && Supplied(inp, s) && !s.client.finished && inp.cfg.Total() >= 1
    requires s.client.rcvd[0] || (|Missing(inp.cfg, s.client.rcvd)| >= 2 && inp.cfg.bs >= 2)
    ensures Reaches(inp, s, s') && Inv(inp, s') && Supplied(inp, s') && FirstKept(inp.cfg, s.client, s'.client)
    ensures |Missing(inp.cfg, s'.client.rcvd)| == |Missing(inp.cfg, s.client.rcvd)| - 1
    ensures inp.lossNum <= 0 ==> s'.server == s.server
  {
    if inp.lossNum >= 1 {
      s' := HearOneAsked(inp, s);
    } else {
      s' := HearOneOut(inp, s);
      Paths.ReachesSelf(Steps(inp), s);
      Paths.ReachThenStep(Steps(inp), s, s, s');
    }
  }

  /** The client can go on until k blocks are missing, the first among them. */
  lemma {:induction false} HearSome(inp: Server.Input, s: State, k: nat) returns (s': State)
    requires Inv(inp, s) && inp.cfg.Total() >= 1 && inp.cfg.bs >= 2 && !s.client.rcvd[0]
    requires CountersStart(s.server.line.counters, inp.lossNum) && s.server.fileSent && !s.server.exited
    requires 1 <= k <= |Missing(inp.cfg, s.client.rcvd)| && (k < |Missing(inp.cfg, s.client.rcvd)| ==> Supplied(inp, s))
    ensures Reaches(inp, s, s') && Inv(inp, s') && !s'.client.rcvd[0] && |Missing(inp.cfg, s'.client.rcvd)| == k
    ensures CountersStart(s'.server.line.counters, inp.lossNum) && s'.server.fileSent && !s'.server.exited
    ensures Supplied(inp, s) ==> Supplied(inp, s')
    decreases |Missing(inp.cfg, s.client.rcvd)|
  {
    if |Missing(inp.cfg, s.client.rcvd)| == k {
      Paths.ReachesSelf(Steps(inp), s);
      s' := s;
    } else {
      Accounting(inp.cfg, s.client);
      var s1 := HearOne(inp, s);
      s' := HearSome(inp, s1, k);
      Paths.ReachTrans(Steps(inp), s, s1, s');
    }
  }

  /** With the first block there, right or not, it can finish, and keeps it. */
  lemma {:induction false} HearRest(inp: Server.Input, s: State, data: seq<Byte>) returns (s': State)
    requires Inv(inp, s) && |data| == inp.cfg.bs && FirstBlockIs(inp.cfg, s.client, data) && s.client.rcvd[0]
    requires s.server.fileSent && !s.server.exited && (s.client.finished || Supplied(inp, s))
    ensures Reaches(inp, s, s') && Inv(inp, s') && s'.client.finished && FirstBlockIs(inp.cfg, s'.client, data)
    ensures s'.server.fileSent && !s'.server.exited
    decreases |Missing(inp.cfg, s.client.rcvd)|
  {
    if s.client.finished {
      Paths.ReachesSelf(Steps(inp), s);
      s' := s;
    } else {
      var s1 := HearOne(inp, s);
      s' := HearRest(inp, s1, data);
      Paths.ReachTrans(Steps(inp), s, s1, s');
    }
  }

  /** Nothing has arrived, so everything is missing. */
  lemma {:induction false} NothingThere(rcvd: seq<bool>, j: nat, n: nat)
    requires j <= n <= |rcvd| && forall i :: j <= i < n ==> !rcvd[i]
    ensures |ClearFrom(rcvd, j, n)| == n - j
    decreases n - j
  {
    if j < n {
      NothingThere(rcvd, j + 1, n);
    }
  }

  lemma InitialLacksAll(cfg: Config)
    requires cfg.Valid()
    ensures cfg.Total() >= 1 && !Initial(cfg).finished && !Initial(cfg).rcvd[0]
    ensures |Missing(cfg, Initial(cfg).rcvd)| == cfg.Total()
  {
    TotalBounds(cfg);
    NothingThere(Initial(cfg).rcvd, 0, cfg.Total());
  }

  /** The state after the first pass, of which the client has heard nothing. */
  lemma Unheard(inp: Server.Input, s: State) returns (s': State)
    requires Init(inp, s)
    ensures Reaches(inp, s, s') && Inv(inp, s') && s'.client == Initial(inp.cfg) && s'.server.fileSent && !s'.server.exited
    ensures s'.server.line == SendAll(s.server.line, Server.PassAttempts(inp, 0))
  {
    s' := s.(server := Server.RunPass(inp, s.server));
    PassReaches(inp, s);
    CleanIsReach(inp, s, s');
    ReachableInv(inp, s, s');
    Server.FirstPassIsExact(inp, s.server);
  }

  /** Blocks can be got after the first pass if the loss number is positive or all blocks fit before the first drop. */
  lemma PassSupplies(inp: Server.Input, s: State, s1: State)
    requires Init(inp, s) && CountersStart(s.server.line.counters, inp.lossNum)
    requires Inv(inp, s1) && s1.server.fileSent && !s1.server.exited
    requires s1.server.line == SendAll(s.server.line, Server.PassAttempts(inp, 0))
    ensures CountersStart(s1.server.line.counters, inp.lossNum)
    ensures inp.lossNum >= 1 || inp.cfg.Total() <= Server.TOTAL_NUM - s.server.line.counters.packet ==> Supplied(inp, s1)
  {
    PassAttemptsUniform(inp, 0);
    SendAllCalls(s.server.line, Server.PassAttempts(inp, 0), inp.lossNum);
    CallsStart(s.server.line.counters, |Server.PassAttempts(inp, 0)|, inp.lossNum);
    if inp.cfg.Total() <= Server.TOTAL_NUM - s.server.line.counters.packet {
      AllGoOut(inp, s.server.line, 0);
    }
  }

  /** If memset stops before the end of the list of all missing blocks, or of as many as leave one slot free, and the other
      blocks can be got, then the client can finish with anything at all for the first block. */
  lemma AnythingCanArrive(inp: Server.Input, s: State, data: seq<Byte>) returns (s': State)
    requires Init(inp, s) && CountersStart(s.server.line.counters, inp.lossNum) && !NeverBeyond(inp.cfg)
    requires inp.lossNum >= 1 || inp.cfg.Total() <= Server.TOTAL_NUM - s.server.line.counters.packet || inp.cfg.Total() == 1
    requires |data| == inp.cfg.bs
    ensures Reaches(inp, s, s') && Inv(inp, s') && s'.client.finished && FirstBlockIs(inp.cfg, s'.client, data)
    ensures s'.server.fileSent && !s'.server.exited
  {
    var s1 := Unheard(inp, s);
    InitialLacksAll(inp.cfg);
    PassSupplies(inp, s, s1);
    s' := Replaced(inp, s1, data);
    Paths.ReachTrans(Steps(inp), s, s1, s');
  }

  /** From there on. */
  lemma Replaced(inp: Server.Input, s: State, data: seq<Byte>) returns (s': State)
    requires Inv(inp, s) && s.server.fileSent && !s.server.exited && CountersStart(s.server.line.counters, inp.lossNum)
    requires inp.cfg.Total() >= 1 && !NeverBeyond(inp.cfg) && |data| == inp.cfg.bs
    requires !s.client.rcvd[0] && |Missing(inp.cfg, s.client.rcvd)| == inp.cfg.Total()
    requires Supplied(inp, s) || inp.cfg.Total() == 1
    ensures Reaches(inp, s, s') && Inv(inp, s') && s'.client.finished && FirstBlockIs(inp.cfg, s'.client, data)
    ensures s'.server.fileSent && !s'.server.exited
  {
    var k := if inp.cfg.Total() < inp.cfg.bs then inp.cfg.Total() else inp.cfg.bs - 1;
    var s1 := HearSome(inp, s, k);
    Accounting(inp.cfg, s1.client);
    var s2 := AskedBeyond(inp, s1);
    if Supplied(inp, s1) {
      StillSupplied(inp, s1, s2);
    }
    var s3 := TakesFirst(inp, s2, data);
    Accounting(inp.cfg, s3.client);
    s' := HearRest(inp, s3, data);
    Paths.ReachTrans(Steps(inp), s, s1, s2);
    Paths.ReachThenStep(Steps(inp), s, s2, s3);
    Paths.ReachTrans(Steps(inp), s, s3, s');
  }

  lemma StillSupplied(inp: Server.Input, s: State, s': State)
    requires inp.Valid() && Supplied(inp, s) && s.server.line.wire <= s'.server.line.wire
    requires CountersStart(s'.server.line.counters, inp.lossNum) && s'.server.fileSent && !s'.server.exited
    ensures Supplied(inp, s')
  {
  }
}
