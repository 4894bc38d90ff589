/** Server and client together over a network that may lose, repeat, delay and reorder
    datagrams: anything ever handed to sendto may arrive at any later time, any number of times. */
module TurboProtocol {
  import opened Frame
  import opened Blocks
  import opened LossInjector
  import opened TurboClient
  import Paths
  import Server = TurboServer

  datatype State = State(server: Server.Server, client: Client)

  datatype Action =
    | PassIteration                        // one turn of the server's first-pass loop
    | HandleControl(m: seq<int>)           // the server receives a control message
    | ReceiveFrame(f: seq<Byte>)           // the client receives a frame
    | ReceiveEmpty(beyond: seq<Byte>)      // the client receives an empty datagram, with these bytes beyond its buffer
    | Timeout(leftover: seq<int>)          // the client hears nothing for a while

  /** The moment after the handshake: loss counters in any state, send buffer of any content. */
  ghost predicate Init(inp: Server.Input, s: State) {
    && Server.Shaped(inp, s.server)
    && s.server.currSeq == 0 && !s.server.fileSent && !s.server.exited && s.server.line.wire == []
    && s.client == Initial(inp.cfg)
  }

  ghost predicate Next(inp: Server.Input, s: State, a: Action, s': State) {
    && Server.Shaped(inp, s.server) && Shaped(inp.cfg, s.client)
    && match a
       case PassIteration =>
         !s.server.fileSent && s' == s.(server := Server.PassStep(inp, s.server))
       case HandleControl(m) =>
         && s.server.fileSent && !s.server.exited && m in s.client.outbox
         && Server.ControlShaped(inp.cfg, m)
         && s' == s.(server := Server.AfterControl(inp, s.server, m))
       case ReceiveFrame(f) =>
         && !s.client.finished && f in s.server.line.wire
         && Acceptable(inp.cfg, f)
         && s' == s.(client := AfterFrame(inp.cfg, s.client, f))
       case ReceiveEmpty(beyond) =>
         && !s.client.finished && [] in s.server.line.wire
         && Placeable(inp.cfg, Untouched(inp.cfg, beyond))
         && s' == s.(client := AfterFrame(inp.cfg, s.client, Untouched(inp.cfg, beyond)))
       case Timeout(leftover) =>
         && !s.client.finished && |leftover| == inp.cfg.bs && Server.QuarterNegative(leftover)
         && s' == s.(client := AfterTimeout(inp.cfg, s.client, leftover))
  }

  ghost function Steps(inp: Server.Input): (State, State) -> bool {
    (s, s') => exists a :: Next(inp, s, a, s')
  }

  /** Some sequence of protocol steps leads from s to s'. */
  ghost predicate Reaches(inp: Server.Input, s: State, s': State) {
    Paths.Reaches(Steps(inp), s, s')
  }

  // ---- the invariant

  /** Everything on the wire carries the file's bytes for its number, or nothing at all. */
  ghost predicate FaithfulOrEmpty(inp: Server.Input, frames: seq<seq<Byte>>)
    requires inp.Valid()
  {
    forall f :: f in frames ==> f == [] || Faithful(inp.cfg, inp.File(), f)
  }

  /** The send buffer holds a frame once the first one went out. */
  ghost predicate BufferFaithful(inp: Server.Input, sv: Server.Server)
    requires inp.Valid()
  {
    sv.currSeq >= 1 ==> Faithful(inp.cfg, inp.File(), sv.sendData)
  }

  ghost predicate ControlsMeant(cfg: Config, c: Client) {
    && (forall m :: m in c.outbox ==> (m == [DONE] && c.finished) || (|m| == cfg.bs >= 1 && m[0] >= 0))
    && (c.finished ==> [DONE] in c.outbox)
  }

  /** The server's side: what it has sent and what is in its send buffer. */
  ghost predicate ServerOk(inp: Server.Input, sv: Server.Server) {
    Server.Shaped(inp, sv) && FaithfulOrEmpty(inp, sv.line.wire) && BufferFaithful(inp, sv)
  }

  /** The client's side: the count is exact, all blocks but the first agree with the file where their bits are set, and its
      control messages mean what they say. */
  ghost predicate ClientOk(inp: Server.Input, c: Client)
    requires inp.Valid()
  {
    Counted(inp.cfg, c) && AgreesFrom(inp.cfg, inp.File(), c, 1) && ControlsMeant(inp.cfg, c)
  }

  /** What every run keeps, whatever the unused slots of the control arrays hold. */
  ghost predicate Inv(inp: Server.Input, s: State) {
    ServerOk(inp, s.server) && ClientOk(inp, s.client) && (s.server.exited ==> s.client.finished)
  }

  /** The first block agrees as well. */
  ghost predicate Genuine(inp: Server.Input, s: State)
    requires Inv(inp, s)
  {
    AgreesFrom(inp.cfg, inp.File(), s.client, 0)
  }

  lemma InitInv(inp: Server.Input, s: State)
    requires Init(inp, s)
    ensures Inv(inp, s) && Genuine(inp, s)
  {
    InitialConsistent(inp.cfg, inp.File());
  }

  lemma NextInv(inp: Server.Input, s: State, a: Action, s': State)
    requires Inv(inp, s) && Next(inp, s, a, s')
    ensures Inv(inp, s')
  {
    match a
    case PassIteration => PassStepFaithful(inp, s.server);
    case HandleControl(m) => ControlStepFaithful(inp, s.server, m, s.client);
    case ReceiveFrame(f) => FrameClient(inp, s.client, f);
    case ReceiveEmpty(beyond) => EmptyClient(inp, s.client, beyond);
    case Timeout(leftover) => TimeoutClient(inp, s.client, leftover);
  }

  lemma FrameClient(inp: Server.Input, c: Client, f: seq<Byte>)
    requires inp.Valid() && ClientOk(inp, c) && !c.finished && Faithful(inp.cfg, inp.File(), f)
    ensures ClientOk(inp, AfterFrame(inp.cfg, c, f))
  {
    FrameKeepsAgreeing(inp.cfg, inp.File(), c, f, 1);
  }

  lemma EmptyClient(inp: Server.Input, c: Client, beyond: seq<Byte>)
    requires inp.Valid() && ClientOk(inp, c) && !c.finished && Placeable(inp.cfg, Untouched(inp.cfg, beyond))
    ensures ClientOk(inp, AfterFrame(inp.cfg, c, Untouched(inp.cfg, beyond)))
  {
    EmptyReadsAsBlockZero(inp.cfg, beyond);
    FrameSetsItsBlock(inp.cfg, c, Untouched(inp.cfg, beyond));
  }

  lemma TimeoutClient(inp: Server.Input, c: Client, leftover: seq<int>)
    requires inp.Valid() && ClientOk(inp, c) && !c.finished && |leftover| == inp.cfg.bs
    ensures ClientOk(inp, AfterTimeout(inp.cfg, c, leftover))
  {
    NackIsExact(inp.cfg, c, leftover);
  }

  lemma PassStepFaithful(inp: Server.Input, sv: Server.Server)
    requires Server.Shaped(inp, sv) && BufferFaithful(inp, sv)
    ensures BufferFaithful(inp, Server.PassStep(inp, sv))
    ensures FaithfulOrEmpty(inp, sv.line.wire) ==> FaithfulOrEmpty(inp, Server.PassStep(inp, sv).line.wire)
    ensures AllFaithful(inp.cfg, inp.File(), sv.line.wire) ==>
              AllFaithful(inp.cfg, inp.File(), Server.PassStep(inp, sv).line.wire)
  {
    TotalBounds(inp.cfg);
    if sv.currSeq < inp.cfg.Total() {
      Server.PassFrameIsFaithful(inp, sv.currSeq);
    }
  }

  /** A call that sends the file's bytes for a block with the server's own numbers, or an empty datagram. */
  ghost predicate CallOk(inp: Server.Input, a: Attempt<seq<Byte>>)
    requires inp.Valid()
  {
    || (a.total == Server.TOTAL_NUM && a.lossNum == inp.lossNum && Faithful(inp.cfg, inp.File(), a.msg))
    || a == Attempt([], 10, 9)
  }

  lemma SentFaithful(inp: Server.Input, l: Line<seq<Byte>>, attempts: seq<Attempt<seq<Byte>>>)
    requires inp.Valid() && FaithfulOrEmpty(inp, l.wire)
    requires forall a :: a in attempts ==> CallOk(inp, a)
    ensures FaithfulOrEmpty(inp, SendAll(l, attempts).wire)
  {
    var wire := SendAll(l, attempts).wire;
    SendAllExtends(l, attempts);
    forall f | f in wire
      ensures f == [] || Faithful(inp.cfg, inp.File(), f)
    {
      if f !in l.wire {
        assert wire == l.wire + wire[|l.wire|..];
        var a :| a in attempts && a.msg == f;
      }
    }
  }

  lemma ControlStepFaithful(inp: Server.Input, sv: Server.Server, m: seq<int>, c: Client)
    requires Server.Shaped(inp, sv) && FaithfulOrEmpty(inp, sv.line.wire)
    requires ControlsMeant(inp.cfg, c) && m in c.outbox
    ensures Server.ControlShaped(inp.cfg, m)
    ensures FaithfulOrEmpty(inp, Server.AfterControl(inp, sv, m).line.wire)
    ensures Server.AfterControl(inp, sv, m).exited ==> sv.exited || c.finished
  {
    if m[0] != DONE {
      var attempts := Server.NackAttempts(inp, m, 0);
      CallsOk(inp, m, 0);
      SentFaithful(inp, sv.line, attempts);
    }
  }

  lemma {:induction false} CallsOk(inp: Server.Input, m: seq<int>, i: nat)
    requires inp.Valid() && i <= |m|
    ensures forall a :: a in Server.NackAttempts(inp, m, i) ==> CallOk(inp, a)
    decreases |m| - i
  {
    if i < |m| && m[i] >= 0 {
      if m[i] < inp.cfg.Total() {
        Server.BlockFrameIsFaithful(inp, m[i]);
      }
      CallsOk(inp, m, i + 1);
    }
  }

  lemma ReachableInv(inp: Server.Input, s0: State, s: State)
    requires Init(inp, s0) && Reaches(inp, s0, s)
    ensures Inv(inp, s)
  {
    InitInv(inp, s0);
    forall a, b | Inv(inp, a) && Steps(inp)(a, b)
      ensures Inv(inp, b)
    {
      var act :| Next(inp, a, act, b);
      NextInv(inp, a, act, b);
    }
    Paths.KeptByReach(Steps(inp), x => Inv(inp, x), s0, s);
  }

  /** An empty datagram has gone out only if the client sent an array with a number past the last block before the first
      negative slot. */
  ghost predicate EmptyExplained(inp: Server.Input, s: State)
    requires inp.Valid()
  {
    [] in s.server.line.wire ==> exists m :: m in s.client.outbox && Beyond(inp.cfg, m, 0)
  }

  lemma PassIsNotEmpty(inp: Server.Input, sv: Server.Server)
    requires Server.Shaped(inp, sv) && [] in Server.PassStep(inp, sv).line.wire
    ensures [] in sv.line.wire
  {
    if sv.currSeq <= inp.cfg.Total() {
      var buffer := Server.PassStep(inp, sv).sendData;
      var l' := Send(sv.line, Attempt(buffer, Server.TOTAL_NUM, inp.lossNum));
      SendExtends(sv.line, Attempt(buffer, Server.TOTAL_NUM, inp.lossNum));
      assert l'.wire == sv.line.wire + l'.wire[|sv.line.wire|..];
    }
  }

  lemma AnswerIsEmpty(inp: Server.Input, l: Line<seq<Byte>>, m: seq<int>)
    requires inp.Valid() && [] !in l.wire && [] in SendAll(l, Server.NackAttempts(inp, m, 0)).wire
    ensures Beyond(inp.cfg, m, 0)
  {
    var attempts := Server.NackAttempts(inp, m, 0);
    var wire := SendAll(l, attempts).wire;
    SendAllExtends(l, attempts);
    assert wire == l.wire + wire[|l.wire|..];
    var a :| a in attempts && a.msg == [];
    Server.EmptyAnswerIff(inp, m, 0);
  }

  lemma EmptyExplainedStep(inp: Server.Input, s: State, a: Action, s': State)
    requires Inv(inp, s) && Next(inp, s, a, s') && EmptyExplained(inp, s)
    ensures EmptyExplained(inp, s')
  {
    if [] in s'.server.line.wire {
      if a.PassIteration? {
        PassIsNotEmpty(inp, s.server);
      } else if a.HandleControl? && [] !in s.server.line.wire {
        AnswerIsEmpty(inp, s.server.line, a.m);
        assert a.m in s'.client.outbox;
      } else {
        OutboxGrows(inp, s, a, s');
      }
    }
  }

  /** What the client has sent stays sent. */
  lemma OutboxGrows(inp: Server.Input, s: State, a: Action, s': State)
    requires Next(inp, s, a, s')
    ensures s.client.outbox <= s'.client.outbox
  {
  }

  lemma EmptyNeedsBeyond(inp: Server.Input, s0: State, s: State)
    requires Init(inp, s0) && Reaches(inp, s0, s) && [] in s.server.line.wire
    ensures exists m :: m in s.client.outbox && Beyond(inp.cfg, m, 0)
  {
    InitInv(inp, s0);
    forall a, b | Inv(inp, a) && EmptyExplained(inp, a) && Steps(inp)(a, b)
      ensures Inv(inp, b) && EmptyExplained(inp, b)
    {
      var act :| Next(inp, a, act, b);
      NextInv(inp, a, act, b);
      EmptyExplainedStep(inp, a, act, b);
    }
    Paths.KeptByReach(Steps(inp), x => Inv(inp, x) && EmptyExplained(inp, x), s0, s);
  }

  /** The layouts for which no array ever names a number past the last block: what memset sets ends every list. */
  predicate NeverBeyond(cfg: Config)
    requires cfg.bs >= 1
  {
    cfg.bs == 1 || cfg.Total() < cfg.bs / 4
  }

  lemma ArrayNeverBeyond(cfg: Config, c: Client, leftover: seq<int>)
    requires Counted(cfg, c) && !c.finished && NeverBeyond(cfg)
    requires |leftover| == cfg.bs && Server.QuarterNegative(leftover)
    ensures !Beyond(cfg, Nack(cfg, c.rcvd, leftover), 0)
  {
    NackIsExact(cfg, c, leftover);
    ClearLength(c.rcvd, 0, cfg.Total());
    assert !Beyond(cfg, leftover, Asked(cfg, c.rcvd));
  }

  ghost predicate NoneBeyond(cfg: Config, outbox: seq<seq<int>>)
    requires cfg.bs >= 1
  {
    forall m :: m in outbox ==> !Beyond(cfg, m, 0)
  }

  lemma FrameNamesNothing(cfg: Config, c: Client, frame: seq<Byte>)
    requires Shaped(cfg, c) && Placeable(cfg, frame) && NoneBeyond(cfg, c.outbox)
    ensures NoneBeyond(cfg, AfterFrame(cfg, c, frame).outbox)
  {
    assert !Beyond(cfg, [DONE], 0);
  }

  /** No such array has been sent and no empty datagram is there. */
  ghost predicate NothingEmpty(inp: Server.Input, s: State) {
    Inv(inp, s) && NoneBeyond(inp.cfg, s.client.outbox) && [] !in s.server.line.wire
  }

  lemma NothingEmptyStep(inp: Server.Input, s: State, a: Action, s': State)
    requires NothingEmpty(inp, s) && NeverBeyond(inp.cfg) && Next(inp, s, a, s')
    ensures NothingEmpty(inp, s')
  {
    NextInv(inp, s, a, s');
    EmptyExplainedStep(inp, s, a, s');
    match a {
      case ReceiveFrame(f) =>
        FrameNamesNothing(inp.cfg, s.client, f);
      case ReceiveEmpty(beyond) =>
        FrameNamesNothing(inp.cfg, s.client, Untouched(inp.cfg, beyond));
      case Timeout(leftover) =>
        TimeoutNeverBeyond(inp.cfg, s.client, leftover);
      case _ =>
    }
  }

  lemma TimeoutNeverBeyond(cfg: Config, c: Client, leftover: seq<int>)
    requires Counted(cfg, c) && !c.finished && NeverBeyond(cfg) && NoneBeyond(cfg, c.outbox)
    requires |leftover| == cfg.bs && Server.QuarterNegative(leftover)
    ensures NoneBeyond(cfg, AfterTimeout(cfg, c, leftover).outbox)
  {
    ArrayNeverBeyond(cfg, c, leftover);
  }

  /** For these layouts no empty datagram ever goes out. */
  lemma NothingEmptyIsSent(inp: Server.Input, s0: State, s: State)
    requires Init(inp, s0) && Reaches(inp, s0, s) && NeverBeyond(inp.cfg)
    ensures NothingEmpty(inp, s)
  {
    InitInv(inp, s0);
    forall a, b | NothingEmpty(inp, a) && Steps(inp)(a, b)
      ensures NothingEmpty(inp, b)
    {
      var act :| Next(inp, a, act, b);
      NothingEmptyStep(inp, a, act, b);
    }
    Paths.KeptByReach(Steps(inp), x => NothingEmpty(inp, x), s0, s);
  }

  // ---- the first block

  /** This step brings a client that still lacks the first block an empty datagram: it reads past its buffer. */
  ghost predicate ReadsPastBuffer(s: State, a: Action) {
    a.ReceiveEmpty? && |s.client.rcvd| > 0 && !s.client.rcvd[0]
  }

  /** And what it finds there is not what the file begins with. */
  ghost predicate Spoils(inp: Server.Input, s: State, a: Action)
    requires inp.Valid()
  {
    && ReadsPastBuffer(s, a) && Placeable(inp.cfg, Untouched(inp.cfg, a.beyond))
    && (BlockFits(inp.cfg, 0);
        DecodedData(Untouched(inp.cfg, a.beyond), inp.cfg.bs)[..inp.cfg.BlockLen(0)] != Block(inp.cfg, inp.File(), 0))
  }

  /** One step: the first block is wrong exactly if it was, or the client takes foreign bytes for it. */
  lemma GenuineStep(inp: Server.Input, s: State, a: Action, s': State)
    requires Inv(inp, s) && Next(inp, s, a, s')
    ensures Inv(inp, s')
    ensures Genuine(inp, s') <==> Genuine(inp, s) && !Spoils(inp, s, a)
  {
    NextInv(inp, s, a, s');
    FirstDecides(inp, s.client);
    match a
    case ReceiveFrame(f) => FrameKeepsFirst(inp, s.client, f);
    case ReceiveEmpty(beyond) => EmptySetsFirst(inp, s.client, beyond);
    case _ =>
  }

  /** Given that the others agree, only the first block matters. */
  lemma FirstDecides(inp: Server.Input, c: Client)
    requires inp.Valid() && ClientOk(inp, c)
    ensures inp.cfg.Total() >= 1
    ensures AgreesFrom(inp.cfg, inp.File(), c, 0)
       <==> (c.rcvd[0] ==> Block(inp.cfg, c.image, 0) == Block(inp.cfg, inp.File(), 0))
  {
    TotalBounds(inp.cfg);
  }

  lemma FrameKeepsFirst(inp: Server.Input, c: Client, f: seq<Byte>)
    requires inp.Valid() && ClientOk(inp, c) && !c.finished && Faithful(inp.cfg, inp.File(), f)
    ensures var c' := AfterFrame(inp.cfg, c, f);
            ClientOk(inp, c') && (AgreesFrom(inp.cfg, inp.File(), c', 0) <==> AgreesFrom(inp.cfg, inp.File(), c, 0))
  {
    FrameClient(inp, c, f);
    FrameSetsItsBlock(inp.cfg, c, f);
    FirstDecides(inp, c);
    FirstDecides(inp, AfterFrame(inp.cfg, c, f));
  }

  lemma EmptySetsFirst(inp: Server.Input, c: Client, beyond: seq<Byte>)
    requires inp.Valid() && ClientOk(inp, c) && !c.finished && Placeable(inp.cfg, Untouched(inp.cfg, beyond))
    ensures var c' := AfterFrame(inp.cfg, c, Untouched(inp.cfg, beyond));
            && ClientOk(inp, c') && 0 <= inp.cfg.BlockLen(0) <= inp.cfg.bs
            && AgreesFrom(inp.cfg, inp.File(), c', 0)
            == if c.rcvd[0] then AgreesFrom(inp.cfg, inp.File(), c, 0)
               else DecodedData(Untouched(inp.cfg, beyond), inp.cfg.bs)[..inp.cfg.BlockLen(0)] == Block(inp.cfg, inp.File(), 0)
  {
    EmptyClient(inp, c, beyond);
    EmptyReadsAsBlockZero(inp.cfg, beyond);
    FrameSetsItsBlock(inp.cfg, c, Untouched(inp.cfg, beyond));
    FirstDecides(inp, AfterFrame(inp.cfg, c, Untouched(inp.cfg, beyond)));
  }

  /** A run with the actions that lead from each state to the next. */
  ghost predicate IsRun(inp: Server.Input, run: seq<State>, acts: seq<Action>) {
    && |run| == |acts| + 1 && Init(inp, run[0])
    && forall i :: 0 <= i < |acts| ==> Next(inp, run[i], acts[i], run[i + 1])
  }

  lemma {:induction false} RunInv(inp: Server.Input, run: seq<State>, acts: seq<Action>, n: nat)
    requires IsRun(inp, run, acts) && n <= |acts|
    ensures Inv(inp, run[n])
  {
    if n == 0 {
      InitInv(inp, run[0]);
    } else {
      RunInv(inp, run, acts, n - 1);
      NextInv(inp, run[n - 1], acts[n - 1], run[n]);
    }
  }

  /** No step so far has spoilt the first block. */
  ghost predicate NothingSpoilt(inp: Server.Input, run: seq<State>, acts: seq<Action>, n: nat)
    requires inp.Valid() && n <= |acts| < |run|
  {
    forall i :: 0 <= i < n ==> !Spoils(inp, run[i], acts[i])
  }

  /** The first block is right after i steps. */
  ghost function RightAfter(inp: Server.Input, run: seq<State>): nat -> bool {
    (i: nat) => i < |run| && Inv(inp, run[i]) && Genuine(inp, run[i])
  }

  /** Step i spoils it. */
  ghost function SpoiltBy(inp: Server.Input, run: seq<State>, acts: seq<Action>): nat -> bool
    requires inp.Valid()
  {
    (i: nat) => i < |run| && i < |acts| && Spoils(inp, run[i], acts[i])
  }

  ghost predicate Never(spoilt: nat -> bool, n: nat) {
    forall k: nat {:trigger spoilt(k)} :: k < n ==> !spoilt(k)
  }

  /** Step k leaves right what is right, unless it spoils it. */
  ghost predicate OnlySpoils(right: nat -> bool, spoilt: nat -> bool, k: nat) {
    right(k + 1) <==> right(k) && !spoilt(k)
  }

  lemma NeverOneMore(spoilt: nat -> bool, n: nat)
    ensures Never(spoilt, n + 1) <==> Never(spoilt, n) && !spoilt(n)
  {
  }

  lemma {:induction false} HistoryIff(right: nat -> bool, spoilt: nat -> bool, n: nat)
    requires right(0) && forall k: nat {:trigger OnlySpoils(right, spoilt, k)} :: k < n ==> OnlySpoils(right, spoilt, k)
    ensures right(n) <==> Never(spoilt, n)
  {
    if n > 0 {
      HistoryIff(right, spoilt, n - 1);
      assert OnlySpoils(right, spoilt, n - 1);
      NeverOneMore(spoilt, n - 1);
    }
  }

  lemma StepAt(inp: Server.Input, run: seq<State>, acts: seq<Action>, k: nat)
    requires IsRun(inp, run, acts) && k < |acts|
    ensures OnlySpoils(RightAfter(inp, run), SpoiltBy(inp, run, acts), k)
  {
    RunInv(inp, run, acts, k);
    GenuineStep(inp, run[k], acts[k], run[k + 1]);
  }

  lemma UnspoiltMeans(inp: Server.Input, run: seq<State>, acts: seq<Action>, n: nat)
    requires inp.Valid() && n <= |acts| < |run|
    ensures NothingSpoilt(inp, run, acts, n) <==> Never(SpoiltBy(inp, run, acts), n)
  {
    var spoilt := SpoiltBy(inp, run, acts);
    if Never(spoilt, n) {
      forall i | 0 <= i < n
        ensures !Spoils(inp, run[i], acts[i])
      {
        assert !spoilt(i);
      }
    }
  }

  /** Whole runs: the first block is right exactly if no step has spoilt it. */
  lemma GenuineIff(inp: Server.Input, run: seq<State>, acts: seq<Action>, n: nat)
    requires IsRun(inp, run, acts) && n <= |acts|
    ensures Inv(inp, run[n])
    ensures Genuine(inp, run[n]) <==> NothingSpoilt(inp, run, acts, n)
  {
    InitInv(inp, run[0]);
    RunInv(inp, run, acts, n);
    forall k: nat | k < n
      ensures OnlySpoils(RightAfter(inp, run), SpoiltBy(inp, run, acts), k)
    {
      StepAt(inp, run, acts, k);
    }
    HistoryIff(RightAfter(inp, run), SpoiltBy(inp, run, acts), n);
    UnspoiltMeans(inp, run, acts, n);
  }

  // ---- main results

  lemma FinishedImage(inp: Server.Input, s: State)
    requires Inv(inp, s) && s.client.finished
    ensures s.client.image == inp.File() <==> Genuine(inp, s)
  {
    if Genuine(inp, s) {
      FinishedMeansIdentical(inp.cfg, inp.File(), s.client);
    }
  }

  /** Safety, in every reachable state: each block but the first agrees with the server's file if its bit is set, and a
      client that has finished holds the whole file byte for byte exactly if the first block does as well. */
  lemma FinishedMeansDelivered(inp: Server.Input, s0: State, s: State)
    requires Init(inp, s0) && Reaches(inp, s0, s)
    ensures Inv(inp, s)
    ensures forall j :: 1 <= j < inp.cfg.Total() && s.client.rcvd[j] ==>
              Block(inp.cfg, s.client.image, j) == Block(inp.cfg, inp.File(), j)
    ensures s.client.finished ==> (s.client.image == inp.File() <==> Genuine(inp, s))
  {
    ReachableInv(inp, s0, s);
    if s.client.finished {
      FinishedImage(inp, s);
    }
  }

  /** For the layouts in which nothing empty goes out a finished client always holds the file. */
  lemma NeverBeyondDelivers(inp: Server.Input, s0: State, s: State)
    requires Init(inp, s0) && Reaches(inp, s0, s) && NeverBeyond(inp.cfg)
    ensures Inv(inp, s) && Genuine(inp, s)
    ensures s.client.finished ==> s.client.image == inp.File()
  {
    InitInv(inp, s0);
    forall a, b | NothingEmpty(inp, a) && Genuine(inp, a) && Steps(inp)(a, b)
      ensures NothingEmpty(inp, b) && Genuine(inp, b)
    {
      var act :| Next(inp, a, act, b);
      NothingEmptyStep(inp, a, act, b);
      GenuineStep(inp, a, act, b);
    }
    Paths.KeptByReach(Steps(inp), x => NothingEmpty(inp, x) && Genuine(inp, x), s0, s);
    if s.client.finished {
      FinishedImage(inp, s);
    }
  }

  /** In terms of what happened: at the end of a run that the client has finished it holds the server's file exactly if no
      empty datagram ever reached it, without the first block, and made it read something else past its buffer. */
  lemma FinishedMeansDeliveredIff(inp: Server.Input, run: seq<State>, acts: seq<Action>)
    requires IsRun(inp, run, acts) && run[|acts|].client.finished
    ensures run[|acts|].client.image == inp.File() <==> NothingSpoilt(inp, run, acts, |acts|)
  {
    GenuineIff(inp, run, acts, |acts|);
    FinishedImage(inp, run[|acts|]);
  }

  /** Accounting: in every reachable state the byte count is the total length of the blocks received,
      never above the file size, and equal to it exactly when no block is missing. */
  lemma CountIsAlwaysExact(inp: Server.Input, s0: State, s: State)
    requires Init(inp, s0) && Reaches(inp, s0, s)
    ensures var c := s.client;
            && Shaped(inp.cfg, c)
            && c.recvSize == SumLen(inp.cfg, c.rcvd, inp.cfg.Total()) <= inp.cfg.size
            && (c.recvSize >= inp.cfg.size <==> Missing(inp.cfg, c.rcvd) == [])
            && (c.finished <==> c.recvSize >= inp.cfg.size)
  {
    ReachableInv(inp, s0, s);
    Accounting(inp.cfg, s.client);
  }

  /** Agreement: the server reports the file as sent only when the client has all blocks, and then the client has the file
      exactly if its first block is right. */
  lemma ServerExitMeansDelivered(inp: Server.Input, s0: State, s: State)
    requires Init(inp, s0) && Reaches(inp, s0, s) && s.server.exited
    ensures Inv(inp, s) && s.client.finished && Missing(inp.cfg, s.client.rcvd) == []
    ensures s.client.image == inp.File() <==> Genuine(inp, s)
  {
    ReachableInv(inp, s0, s);
    Accounting(inp.cfg, s.client);
    FinishedImage(inp, s);
  }

  /** Whatever is waiting on the network is something its receiver can process, or empty. */
  lemma EveryDatagramIsReadable(inp: Server.Input, s0: State, s: State)
    requires Init(inp, s0) && Reaches(inp, s0, s)
    ensures Server.Shaped(inp, s.server)
    ensures forall f :: f in s.server.line.wire ==> f == [] || Acceptable(inp.cfg, f)
    ensures forall m :: m in s.client.outbox ==> Server.ControlShaped(inp.cfg, m)
  {
    ReachableInv(inp, s0, s);
  }
}
