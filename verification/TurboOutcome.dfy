/** What the loss injector's setting means for whole transfers: with a positive loss number sessions of rounds end,
    with any other no block but the first and those that fit before the first drop ever arrives, in any run. */
module TurboOutcome {
  import opened Arithmetic
  import opened Frame
  import opened Blocks
  import opened LossInjector
  import opened TurboClient
  import opened TurboProtocol
  import opened TurboProgress
  import Paths
  import Server = TurboServer

  /** Counter states that calls of dropsendto with this loss number can have left behind. */
  predicate CountersStart(c: Counters, lossNum: int) {
    1 <= c.packet <= Server.TOTAL_NUM && 1 <= c.loss && (lossNum >= 1 ==> CountersOk(c, lossNum))
  }

  /** The states that calls with this loss number reach are of that kind. */
  lemma {:induction false} CountersStartAfter(n: nat, lossNum: int)
    ensures CountersStart(After(n, Server.TOTAL_NUM, lossNum), lossNum)
  {
    if n > 0 {
      CountersStartAfter(n - 1, lossNum);
    }
  }

  // ---- a positive loss number

  lemma FirstPassCounters(inp: Server.Input, s: State)
    requires Init(inp, s) && CountersOk(s.server.line.counters, inp.lossNum)
    ensures CountersOk(AfterFirstPass(inp, s).server.line.counters, inp.lossNum)
  {
    Server.FirstPassIsExact(inp, s.server);
    PassAttemptsUniform(inp, 0);
    SendAllProgress(s.server.line, Server.PassAttempts(inp, 0), inp.lossNum);
  }

  /** Transfers with a positive loss number end with the right file, after at most Total * (L / 2 + 1) timeouts, if the unused
      slots always end the list. */
  lemma PositiveLossNumberCompletes(inp: Server.Input, s: State, fill: seq<seq<int>>)
    requires Init(inp, s) && inp.lossNum >= 1 && CountersOk(s.server.line.counters, inp.lossNum)
    requires ListsEnd(inp, AfterFirstPass(inp, s), fill) && |fill| >= EnoughRounds(inp.cfg.Total(), inp.lossNum)
    ensures var s' := Rounds(inp, AfterFirstPass(inp, s), fill);
            s'.client.finished && s'.client.image == inp.File()
  {
    var s1 := AfterFirstPass(inp, s);
    FirstPassCounters(inp, s);
    ClearLength(s1.client.rcvd, 0, inp.cfg.Total());
    EnoughMonotone(|Missing(inp.cfg, s1.client.rcvd)|, inp.cfg.Total(), inp.lossNum);
    CompletesWithin(inp, s1, fill);
  }

  /** With fewer blocks than a quarter of the slots they do so in the program as it is, whatever memory holds. */
  lemma SmallTransfersComplete(inp: Server.Input, s: State, fill: seq<seq<int>>)
    requires Init(inp, s) && inp.lossNum >= 1 && CountersOk(s.server.line.counters, inp.lossNum)
    requires inp.cfg.Total() < inp.cfg.bs / 4 && |fill| >= EnoughRounds(inp.cfg.Total(), inp.lossNum)
    requires forall i :: 0 <= i < |fill| ==> |fill[i]| == inp.cfg.bs && Server.QuarterNegative(fill[i])
    ensures ListsEnd(inp, AfterFirstPass(inp, s), fill)
    ensures var s' := Rounds(inp, AfterFirstPass(inp, s), fill);
            s'.client.finished && s'.client.image == inp.File()
  {
    var s1 := AfterFirstPass(inp, s);
    ClearLength(s1.client.rcvd, 0, inp.cfg.Total());
    QuarterFits(inp.cfg, MissingNow(inp, s1), fill);
    FillersEnd(inp, s1, fill);
    PositiveLossNumberCompletes(inp, s, fill);
  }

  lemma EnoughMonotone(a: nat, b: nat, lossNum: nat)
    requires a <= b
    ensures EnoughRounds(a, lossNum) <= EnoughRounds(b, lossNum)
  {
    MulMonotone(a, b, lossNum / 2 + 1);
  }

  lemma {:induction false} PassAttemptsUniform(inp: Server.Input, j: nat)
    requires inp.Valid() && j <= inp.cfg.Total()
    ensures Uniform(Server.PassAttempts(inp, j), inp.lossNum)
    decreases inp.cfg.Total() - j
  {
    if j < inp.cfg.Total() {
      PassAttemptsUniform(inp, j + 1);
    }
  }

  // ---- a loss number of zero or less

  /** After the last successful call nothing gets through any more. */
  predicate Blocked(c: Counters) {
    c.packet == Server.TOTAL_NUM && c.loss >= 1
  }

  lemma {:induction false} BlockedForEver(l: Line<seq<Byte>>, attempts: seq<Attempt<seq<Byte>>>, lossNum: int)
    requires lossNum <= 0 && Blocked(l.counters) && Uniform(attempts, lossNum)
    ensures SendAll(l, attempts).wire == l.wire && Blocked(SendAll(l, attempts).counters)
    decreases |attempts|
  {
    if attempts != [] {
      BlockedForEver(Send(l, attempts[0]), attempts[1..], lossNum);
    }
  }

  /** Between the wires w0 and w1 the blocks from j up to limit went out, and no block from limit on. */
  ghost predicate GotAcross(inp: Server.Input, w0: seq<seq<Byte>>, w1: seq<seq<Byte>>, j: nat, limit: int)
    requires inp.Valid()
  {
    && w0 <= w1
    && (forall i :: j <= i < inp.cfg.Total() && i < limit ==> Server.PassFrame(inp, i) in w1)
    && (forall f :: f in w1[|w0|..] ==> Acceptable(inp.cfg, f) && DecodedSeq(f) < limit)
  }

  lemma GotAcrossStep(inp: Server.Input, w0: seq<seq<Byte>>, w1: seq<seq<Byte>>, j: nat, limit: int)
    requires inp.Valid() && j < inp.cfg.Total() && j < limit
    requires GotAcross(inp, w0 + [Server.PassFrame(inp, j)], w1, j + 1, limit)
    ensures GotAcross(inp, w0, w1, j, limit)
  {
    var f := Server.PassFrame(inp, j);
    Server.PassFrameIsFaithful(inp, j);
    SliceChain(w0, w0 + [f], w1);
    assert (w0 + [f])[|w0|..] == [f];
    assert w1[|w0|] == f;
  }

  /** The first pass from block j on gets exactly the blocks below `limit` across. */
  lemma {:induction false} PassUnderBudget(inp: Server.Input, l: Line<seq<Byte>>, j: nat, limit: int)
    requires inp.Valid() && inp.lossNum <= 0 && j <= inp.cfg.Total()
    requires CountersStart(l.counters, inp.lossNum) && limit == j + Server.TOTAL_NUM - l.counters.packet
    ensures var l' := SendAll(l, Server.PassAttempts(inp, j));
            && GotAcross(inp, l.wire, l'.wire, j, limit)
            && (limit < inp.cfg.Total() ==> Blocked(l'.counters))
    decreases inp.cfg.Total() - j
  {
    TotalBounds(inp.cfg);
    var attempts := Server.PassAttempts(inp, j);
    if Blocked(l.counters) {
      PassAttemptsUniform(inp, j);
      BlockedForEver(l, attempts, inp.lossNum);
    } else if j < inp.cfg.Total() {
      assert attempts[1..] == Server.PassAttempts(inp, j + 1);
      PassUnderBudget(inp, Send(l, attempts[0]), j + 1, limit);
      GotAcrossStep(inp, l.wire, SendAll(l, attempts).wire, j, limit);
    } else {
      LastResend(inp, l, limit);
    }
  }

  lemma LastResend(inp: Server.Input, l: Line<seq<Byte>>, limit: int)
    requires inp.Valid() && l.counters.packet < Server.TOTAL_NUM && inp.cfg.Total() < limit
    ensures GotAcross(inp, l.wire, SendAll(l, Server.PassAttempts(inp, inp.cfg.Total())).wire, inp.cfg.Total(), limit)
  {
    TotalBounds(inp.cfg);
    var attempts := Server.PassAttempts(inp, inp.cfg.Total());
    var f := Server.PassFrame(inp, inp.cfg.Total() - 1);
    Server.PassFrameIsFaithful(inp, inp.cfg.Total() - 1);
    assert SendAll(l, attempts) == Send(l, attempts[0]);
    assert (l.wire + [f])[|l.wire|..] == [f];
  }

  /** A client that has read every frame and is not done has set the bit of each of them. */
  lemma {:induction false} AllReadOrDone(cfg: Config, file: seq<Byte>, c: Client, frames: seq<seq<Byte>>)
    requires Consistent(cfg, file, c) && ControlsMeant(cfg, c) && AllFaithful(cfg, file, frames)
    ensures var c' := ReceiveAll(cfg, c, frames);
            c'.finished || forall f :: f in frames ==> c'.rcvd[DecodedSeq(f)]
    decreases |frames|
  {
    if frames != [] && !c.finished {
      FrameKeepsConsistent(cfg, file, c, frames[0]);
      var c1 := AfterFrame(cfg, c, frames[0]);
      AllReadOrDone(cfg, file, c1, frames[1..]);
      ReceiveAllConsistent(cfg, file, c1, frames[1..]);
      assert forall f :: f in frames ==> f == frames[0] || f in frames[1..];
    }
  }

  /** Enough budget: the first pass alone delivers the file. */
  lemma BudgetSuffices(inp: Server.Input, s: State)
    requires Init(inp, s) && inp.lossNum <= 0 && CountersStart(s.server.line.counters, inp.lossNum)
    requires inp.cfg.Total() <= Server.TOTAL_NUM - s.server.line.counters.packet
    ensures AfterFirstPass(inp, s).client.finished
  {
    var s1 := AfterFirstPass(inp, s);
    var wire := s1.server.line.wire;
    Server.FirstPassIsExact(inp, s.server);
    PassUnderBudget(inp, s.server.line, 0, Server.TOTAL_NUM - s.server.line.counters.packet);
    InitInv(inp, s);
    AllReadOrDone(inp.cfg, inp.File(), s.client, wire);
    AllPassed(inp, s1.client, wire);
  }

  /** A client that has read all frames of the first pass, or is done, is done. */
  lemma AllPassed(inp: Server.Input, c: Client, wire: seq<seq<Byte>>)
    requires inp.Valid() && Counted(inp.cfg, c)
    requires forall j :: 0 <= j < inp.cfg.Total() ==> Server.PassFrame(inp, j) in wire
    requires AllFaithful(inp.cfg, inp.File(), wire)
    requires c.finished || forall f :: f in wire ==> c.rcvd[DecodedSeq(f)]
    ensures c.finished
  {
    forall j | 0 <= j < inp.cfg.Total() && !c.finished
      ensures c.rcvd[j]
    {
      assert Server.PassFrame(inp, j) in wire;
      Server.PassFrameIsFaithful(inp, j);
    }
    Accounting(inp.cfg, c);
  }

  // ---- too little budget

  /** The first pass still has the calls for the blocks from currSeq up to limit before its first drop. */
  ghost predicate WithinBudget(sv: Server.Server, limit: nat) {
    && !sv.fileSent && sv.currSeq <= limit
    && sv.line.counters.packet == Server.TOTAL_NUM - limit + sv.currSeq && sv.line.counters.loss >= 1
  }

  /** Nothing, or frames for blocks before number limit. */
  ghost predicate OnlyBelow(cfg: Config, frames: seq<seq<Byte>>, limit: nat) {
    forall f :: f in frames ==> f == [] || (Acceptable(cfg, f) && DecodedSeq(f) < limit)
  }

  lemma PassFrameBelow(inp: Server.Input, l: Line<seq<Byte>>, j: nat, limit: nat)
    requires inp.Valid() && j < limit && j < inp.cfg.Total() && OnlyBelow(inp.cfg, l.wire, limit)
    ensures OnlyBelow(inp.cfg, Send(l, Attempt(Server.PassFrame(inp, j), Server.TOTAL_NUM, inp.lossNum)).wire, limit)
  {
    Server.PassFrameIsFaithful(inp, j);
  }

  /** Block b has not arrived: only numbers below limit have gone out, and only such ones can. */
  ghost predicate Starved(inp: Server.Input, s: State, limit: nat, b: nat) {
    && Inv(inp, s)
    && limit <= b < inp.cfg.Total() && !s.client.rcvd[b]
    && OnlyBelow(inp.cfg, s.server.line.wire, limit)
    && (Blocked(s.server.line.counters) || WithinBudget(s.server, limit))
  }

  lemma InitStarved(inp: Server.Input, s: State, b: nat)
    requires Init(inp, s) && CountersStart(s.server.line.counters, inp.lossNum)
    requires Server.TOTAL_NUM - s.server.line.counters.packet <= b < inp.cfg.Total()
    ensures Starved(inp, s, Server.TOTAL_NUM - s.server.line.counters.packet, b)
  {
    InitInv(inp, s);
  }

  lemma StarvedPass(inp: Server.Input, s: State, s': State, limit: nat, b: nat)
    requires inp.lossNum <= 0 && Starved(inp, s, limit, b) && Next(inp, s, PassIteration, s')
    ensures Starved(inp, s', limit, b)
  {
    PassStepFaithful(inp, s.server);
    StarvedServer(inp, s.server, limit);
  }

  lemma StarvedServer(inp: Server.Input, sv: Server.Server, limit: nat)
    requires Server.Shaped(inp, sv) && inp.lossNum <= 0 && limit < inp.cfg.Total() && !sv.fileSent
    requires OnlyBelow(inp.cfg, sv.line.wire, limit) && (Blocked(sv.line.counters) || WithinBudget(sv, limit))
    ensures var sv' := Server.PassStep(inp, sv);
            OnlyBelow(inp.cfg, sv'.line.wire, limit) && (Blocked(sv'.line.counters) || WithinBudget(sv', limit))
  {
    if !Blocked(sv.line.counters) {
      PassFrameBelow(inp, sv.line, sv.currSeq, limit);
    }
  }

  /** A blocked injector lets nothing pass but the empty datagrams, which come with numbers of their own. */
  lemma {:induction false} BlockedButForEmpty(inp: Server.Input, l: Line<seq<Byte>>, attempts: seq<Attempt<seq<Byte>>>,
                                              limit: nat)
    requires inp.Valid() && inp.lossNum <= 0 && Blocked(l.counters) && OnlyBelow(inp.cfg, l.wire, limit)
    requires forall a :: a in attempts ==> CallOk(inp, a)
    ensures Blocked(SendAll(l, attempts).counters) && OnlyBelow(inp.cfg, SendAll(l, attempts).wire, limit)
    decreases |attempts|
  {
    if attempts != [] {
      assert CallOk(inp, attempts[0]);
      BlockedButForEmpty(inp, Send(l, attempts[0]), attempts[1..], limit);
    }
  }

  lemma StarvedControl(inp: Server.Input, s: State, m: seq<int>, s': State, limit: nat, b: nat)
    requires inp.lossNum <= 0 && Starved(inp, s, limit, b) && Next(inp, s, HandleControl(m), s')
    ensures Starved(inp, s', limit, b)
  {
    NextInv(inp, s, HandleControl(m), s');
    Accounting(inp.cfg, s.client);
    CallsOk(inp, m, 0);
    BlockedButForEmpty(inp, s.server.line, Server.NackAttempts(inp, m, 0), limit);
  }

  /** No step of either side, in any order and with any loss or repetition, ends the wait for that block, unless it is the
      first one and the client reads past its buffer. */
  lemma StarvedStep(inp: Server.Input, s: State, a: Action, s': State, limit: nat, b: nat)
    requires inp.lossNum <= 0 && Starved(inp, s, limit, b) && Next(inp, s, a, s')
    requires b >= 1 || !ReadsPastBuffer(s, a)
    ensures Starved(inp, s', limit, b)
  {
    match a
    case PassIteration => StarvedPass(inp, s, s', limit, b);
    case HandleControl(m) => StarvedControl(inp, s, m, s', limit, b);
    case ReceiveFrame(f) => NextInv(inp, s, a, s');
    case ReceiveEmpty(beyond) =>
      NextInv(inp, s, a, s');
      EmptyReadsAsBlockZero(inp.cfg, beyond);
      FrameSetsItsBlock(inp.cfg, s.client, Untouched(inp.cfg, beyond));
    case Timeout(leftover) => NextInv(inp, s, a, s');
  }

  lemma StarvedIsNotDone(inp: Server.Input, s: State, limit: nat, b: nat)
    requires Starved(inp, s, limit, b)
    ensures !s.client.finished && !s.server.exited
  {
    Accounting(inp.cfg, s.client);
  }

  lemma StarvedWithMoreBlocks(inp: Server.Input, s0: State, s: State)
    requires Init(inp, s0) && inp.lossNum <= 0 && CountersStart(s0.server.line.counters, inp.lossNum)
    requires Server.TOTAL_NUM - s0.server.line.counters.packet < inp.cfg.Total() && inp.cfg.Total() > 1
    requires Reaches(inp, s0, s)
    ensures !s.client.finished && !s.server.exited
  {
    var limit := Server.TOTAL_NUM - s0.server.line.counters.packet;
    var b := inp.cfg.Total() - 1;
    InitStarved(inp, s0, b);
    forall x, y | Starved(inp, x, limit, b) && Steps(inp)(x, y)
      ensures Starved(inp, y, limit, b)
    {
      var act :| Next(inp, x, act, y);
      StarvedStep(inp, x, act, y, limit, b);
    }
    Paths.KeptByReach(Steps(inp), x => Starved(inp, x, limit, b), s0, s);
    StarvedIsNotDone(inp, s, limit, b);
  }

  lemma StarvedWithNothingEmpty(inp: Server.Input, s0: State, s: State)
    requires Init(inp, s0) && inp.lossNum <= 0 && CountersStart(s0.server.line.counters, inp.lossNum)
    requires Server.TOTAL_NUM - s0.server.line.counters.packet < inp.cfg.Total() && NeverBeyond(inp.cfg)
    requires Reaches(inp, s0, s)
    ensures !s.client.finished && !s.server.exited
  {
    var limit := Server.TOTAL_NUM - s0.server.line.counters.packet;
    InitInv(inp, s0);
    InitStarved(inp, s0, limit);
    forall x, y | Starved(inp, x, limit, limit) && NothingEmpty(inp, x) && Steps(inp)(x, y)
      ensures Starved(inp, y, limit, limit) && NothingEmpty(inp, y)
    {
      var act :| Next(inp, x, act, y);
      NothingEmptyStep(inp, x, act, y);
      StarvedStep(inp, x, act, y, limit, limit);
    }
    Paths.KeptByReach(Steps(inp), x => Starved(inp, x, limit, limit) && NothingEmpty(inp, x), s0, s);
    StarvedIsNotDone(inp, s, limit, limit);
  }

  /** With too little budget no reachable state has either side done, whatever the network does and whatever memory holds;
      but for a single block whose array has a second slot that memset leaves alone. */
  lemma StarvedForEver(inp: Server.Input, s0: State, s: State)
    requires Init(inp, s0) && inp.lossNum <= 0 && CountersStart(s0.server.line.counters, inp.lossNum)
    requires Server.TOTAL_NUM - s0.server.line.counters.packet < inp.cfg.Total()
    requires !(inp.cfg.Total() == 1 && 2 <= inp.cfg.bs <= 7) && Reaches(inp, s0, s)
    ensures !s.client.finished && !s.server.exited
  {
    TotalBounds(inp.cfg);
    if inp.cfg.Total() > 1 {
      StarvedWithMoreBlocks(inp, s0, s);
    } else {
      StarvedWithNothingEmpty(inp, s0, s);
    }
  }

  // ---- runs in which the client never reads past its buffer

  ghost function CleanSteps(inp: Server.Input): (State, State) -> bool {
    (s, s') => exists a :: Next(inp, s, a, s') && !ReadsPastBuffer(s, a)
  }

  /** Some run leads from s to s' in which no empty datagram reaches the client without the first block. */
  ghost predicate CleanReaches(inp: Server.Input, s: State, s': State) {
    Paths.Reaches(CleanSteps(inp), s, s')
  }

  lemma CleanIsReach(inp: Server.Input, s: State, s': State)
    requires CleanReaches(inp, s, s')
    ensures Reaches(inp, s, s')
  {
    Paths.SimulatedReach(CleanSteps(inp), Steps(inp), x => x, x => true, s, s');
  }

  /** In such runs what a finished client holds is the file. */
  lemma CleanRunsDeliver(inp: Server.Input, s0: State, s: State)
    requires Init(inp, s0) && CleanReaches(inp, s0, s)
    ensures Inv(inp, s) && Genuine(inp, s)
    ensures s.client.finished ==> s.client.image == inp.File()
  {
    InitInv(inp, s0);
    forall x, y | Inv(inp, x) && Genuine(inp, x) && CleanSteps(inp)(x, y)
      ensures Inv(inp, y) && Genuine(inp, y)
    {
      var act :| Next(inp, x, act, y) && !ReadsPastBuffer(x, act);
      GenuineStep(inp, x, act, y);
    }
    Paths.KeptByReach(CleanSteps(inp), x => Inv(inp, x) && Genuine(inp, x), s0, s);
    if s.client.finished {
      FinishedImage(inp, s);
    }
  }

  /** In such runs too little budget always means that neither side is ever done. */
  lemma StarvedInCleanRuns(inp: Server.Input, s0: State, s: State)
    requires Init(inp, s0) && inp.lossNum <= 0 && CountersStart(s0.server.line.counters, inp.lossNum)
    requires Server.TOTAL_NUM - s0.server.line.counters.packet < inp.cfg.Total()
    requires CleanReaches(inp, s0, s)
    ensures !s.client.finished && !s.server.exited
  {
    var limit := Server.TOTAL_NUM - s0.server.line.counters.packet;
    InitStarved(inp, s0, limit);
    forall x, y | Starved(inp, x, limit, limit) && CleanSteps(inp)(x, y)
      ensures Starved(inp, y, limit, limit)
    {
      var act :| Next(inp, x, act, y) && !ReadsPastBuffer(x, act);
      StarvedStep(inp, x, act, y, limit, limit);
    }
    Paths.KeptByReach(CleanSteps(inp), x => Starved(inp, x, limit, limit), s0, s);
    StarvedIsNotDone(inp, s, limit, limit);
  }

  /** Any number of rounds can be filled. */
  lemma SomeFillers(inp: Server.Input, s: State, n: nat) returns (fill: seq<seq<int>>)
    requires Quiet(inp, s)
    ensures |fill| == n && ListsEnd(inp, s, fill)
  {
    fill := seq(n, _ => seq(inp.cfg.bs, _ => -2));
    FillersEnd(inp, s, fill);
  }
}
