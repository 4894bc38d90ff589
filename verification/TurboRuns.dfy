/** Which transfers can deliver the file over all runs of the protocol, which can end at all, and which with a wrong file. */
module TurboRuns {
  import opened Frame
  import opened Blocks
  import opened LossInjector
  import opened TurboClient
  import opened TurboProtocol
  import opened TurboProgress
  import opened TurboOutcome
  import opened TurboSessions
  import opened TurboStrays
  import Paths
  import Server = TurboServer

  // ---- which transfers can end

  /** The client is done in some reachable state. */
  ghost predicate CanFinish(inp: Server.Input, s: State) {
    exists s' :: Reaches(inp, s, s') && s'.client.finished
  }

  /** The same without ever reading past its buffer; it then holds the file. */
  ghost predicate CanDeliver(inp: Server.Input, s: State)
    requires inp.Valid()
  {
    exists s' :: CleanReaches(inp, s, s') && s'.client.finished && s'.client.image == inp.File()
  }

  /** The server leaves its loop in some reachable state. */
  ghost predicate CanExit(inp: Server.Input, s: State) {
    exists s' :: Reaches(inp, s, s') && s'.server.exited
  }

  /** The closing mark of a finished client lets the server leave its loop. */
  lemma ThenTheServerExits(inp: Server.Input, s: State, s1: State)
    requires Reaches(inp, s, s1) && Inv(inp, s1) && s1.client.finished && s1.server.fileSent && !s1.server.exited
    ensures CanFinish(inp, s) && CanExit(inp, s)
  {
    var s2 := s1.(server := Server.AfterControl(inp, s1.server, [DONE]));
    assert Next(inp, s1, HandleControl([DONE]), s2);
    Paths.ReachThenStep(Steps(inp), s, s1, s2);
  }

  lemma DeliveredAndDone(inp: Server.Input, s: State, s1: State)
    requires Init(inp, s) && CleanReaches(inp, s, s1) && Quiet(inp, s1) && s1.client.finished
    ensures CanDeliver(inp, s) && CanFinish(inp, s) && CanExit(inp, s)
  {
    CleanRunsDeliver(inp, s, s1);
    CleanIsReach(inp, s, s1);
    ThenTheServerExits(inp, s, s1);
  }

  /** With a positive loss number a session of rounds is a run that both sides finish. */
  lemma PositiveLossNumberCanFinish(inp: Server.Input, s: State)
    requires Init(inp, s) && inp.lossNum >= 1 && CountersOk(s.server.line.counters, inp.lossNum)
    ensures CanDeliver(inp, s) && CanFinish(inp, s) && CanExit(inp, s)
  {
    var fill := SomeSession(inp, s);
    var s1 := AfterFirstPass(inp, s);
    FirstPassReaches(inp, s);
    RoundsReach(inp, s1, fill);
    ReachTrans(inp, s, s1, Rounds(inp, s1, fill));
    DeliveredAndDone(inp, s, Rounds(inp, s1, fill));
  }

  lemma SomeSession(inp: Server.Input, s: State) returns (fill: seq<seq<int>>)
    requires Init(inp, s) && inp.lossNum >= 1 && CountersOk(s.server.line.counters, inp.lossNum)
    ensures ListsEnd(inp, AfterFirstPass(inp, s), fill) && Rounds(inp, AfterFirstPass(inp, s), fill).client.finished
  {
    var n := EnoughRounds(inp.cfg.Total(), inp.lossNum);
    EnoughMonotone(0, inp.cfg.Total(), inp.lossNum);
    fill := SomeFillers(inp, AfterFirstPass(inp, s), n);
    PositiveLossNumberCompletes(inp, s, fill);
  }

  /** With any other loss number and enough budget the first pass is such a run. */
  lemma BudgetCanFinish(inp: Server.Input, s: State)
    requires Init(inp, s) && inp.lossNum <= 0 && CountersStart(s.server.line.counters, inp.lossNum)
    requires inp.cfg.Total() <= Server.TOTAL_NUM - s.server.line.counters.packet
    ensures CanDeliver(inp, s) && CanFinish(inp, s) && CanExit(inp, s)
  {
    BudgetSuffices(inp, s);
    FirstPassReaches(inp, s);
    DeliveredAndDone(inp, s, AfterFirstPass(inp, s));
  }

  /** Over all runs of the protocol, with any loss, repetition and order and any bytes in unused memory. The file can be
      delivered without a read past the client's buffer exactly when the loss number is positive or all blocks fit before the
      injector's first drop. Beyond that only a transfer of one block can end, by such a read, and only if its array has a
      second slot that memset leaves alone. The server can leave its loop exactly when the client can finish. */
  lemma TransferEndsIff(inp: Server.Input, s: State)
    requires Init(inp, s) && CountersStart(s.server.line.counters, inp.lossNum)
    ensures CanDeliver(inp, s)
       <==> inp.lossNum >= 1 || inp.cfg.Total() <= Server.TOTAL_NUM - s.server.line.counters.packet
    ensures CanFinish(inp, s) <==> CanDeliver(inp, s) || (inp.cfg.Total() == 1 && 2 <= inp.cfg.bs <= 7)
    ensures CanExit(inp, s) <==> CanFinish(inp, s)
  {
    if inp.lossNum >= 1 {
      PositiveLossNumberCanFinish(inp, s);
    } else if inp.cfg.Total() <= Server.TOTAL_NUM - s.server.line.counters.packet {
      BudgetCanFinish(inp, s);
    } else {
      forall s' | CleanReaches(inp, s, s')
        ensures !s'.client.finished
      {
        StarvedInCleanRuns(inp, s, s');
      }
      if inp.cfg.Total() == 1 && 2 <= inp.cfg.bs <= 7 {
        var s1 := AnythingCanArrive(inp, s, Zeros(inp.cfg.bs));
        ThenTheServerExits(inp, s, s1);
      } else {
        forall s' | Reaches(inp, s, s')
          ensures !s'.client.finished && !s'.server.exited
        {
          StarvedForEver(inp, s, s');
        }
      }
    }
  }

  /** What is left of the injector's first stretch after n calls. */
  lemma BudgetAfter(n: nat, lossNum: int)
    requires lossNum <= 0
    ensures Server.TOTAL_NUM - After(n, Server.TOTAL_NUM, lossNum).packet
         == if n < Server.TOTAL_NUM - 1 then Server.TOTAL_NUM - 1 - n else 0
  {
    NonPositiveLossNumberNeverRecovers(n, Server.TOTAL_NUM, lossNum);
  }

  /** The same in terms of the handshake: a server that has made n calls of dropsendto before the first pass. */
  lemma TransferEndsAfterHandshakeIff(inp: Server.Input, s: State, n: nat)
    requires Init(inp, s) && s.server.line.counters == After(n, Server.TOTAL_NUM, inp.lossNum)
    ensures CanDeliver(inp, s) <==> inp.lossNum >= 1 || inp.cfg.Total() + n <= Server.TOTAL_NUM - 1
    ensures CanFinish(inp, s) <==> CanDeliver(inp, s) || (inp.cfg.Total() == 1 && 2 <= inp.cfg.bs <= 7)
  {
    CountersStartAfter(n, inp.lossNum);
    TransferEndsIff(inp, s);
    TotalBounds(inp.cfg);
    if inp.lossNum <= 0 {
      BudgetAfter(n, inp.lossNum);
    }
  }

  /** One call in the handshake and a loss number of 0: a file of 999 one-byte blocks can never be transferred. */
  lemma NoLossCannotBeAskedFor() returns (inp: Server.Input, s: State)
    ensures Init(inp, s) && s.server.line.counters == After(1, Server.TOTAL_NUM, 0)
    ensures inp.lossNum == 0 && inp.cfg == Config(999, 1)
    ensures !CanFinish(inp, s)
  {
    inp := Server.Input(Config(999, 1), seq(999, _ => 7), 0);
    s := State(Server.Server(0, seq(1 + HEADER_SIZE, _ => 0), false, false, Line(After(1, Server.TOTAL_NUM, 0), [])),
               Initial(inp.cfg));
    TransferEndsAfterHandshakeIff(inp, s, 1);
  }

  // ---- which transfers can end with a wrong file

  /** The client is done in some reachable state and does not hold the file. */
  ghost predicate CanArriveWrong(inp: Server.Input, s: State)
    requires inp.Valid()
  {
    exists s' :: Reaches(inp, s, s') && s'.client.finished && s'.client.image != inp.File()
  }

  /** A block's worth of bytes that differ from the file's first. */
  ghost function OtherBytes(inp: Server.Input): (data: seq<Byte>)
    requires inp.Valid()
    ensures |data| == inp.cfg.bs && data[0] != inp.File()[0]
  {
    TotalBounds(inp.cfg);
    var b: int := inp.File()[0];
    seq(inp.cfg.bs, _ => (b + 1) % 256)
  }

  lemma OtherFirstBlock(inp: Server.Input, c: Client)
    requires inp.Valid() && FirstBlockIs(inp.cfg, c, OtherBytes(inp))
    ensures c.image != inp.File()
  {
    BlockFits(inp.cfg, 0);
    assert Block(inp.cfg, c.image, 0)[0] == c.image[0];
  }

  /** A client can finish with something else than the file exactly when it can finish at all, its array has a second slot,
      and the file has at least as many blocks as memset sets slots. */
  lemma WrongFileIff(inp: Server.Input, s: State)
    requires Init(inp, s) && CountersStart(s.server.line.counters, inp.lossNum)
    ensures CanArriveWrong(inp, s) <==> CanFinish(inp, s) && inp.cfg.bs >= 2 && inp.cfg.Total() >= inp.cfg.bs / 4
  {
    TransferEndsIff(inp, s);
    if NeverBeyond(inp.cfg) {
      forall s' | Reaches(inp, s, s') && s'.client.finished
        ensures s'.client.image == inp.File()
      {
        NeverBeyondDelivers(inp, s, s');
      }
    } else if CanFinish(inp, s) {
      var s' := AnythingCanArrive(inp, s, OtherBytes(inp));
      OtherFirstBlock(inp, s'.client);
    }
  }

  /** One call in the handshake, a loss number of 1 and a file of two bytes in one block: it can arrive as something else. */
  lemma WrongFileCanArrive() returns (inp: Server.Input, s: State)
    ensures Init(inp, s) && s.server.line.counters == After(1, Server.TOTAL_NUM, 1)
    ensures inp.lossNum == 1 && inp.cfg == Config(2, 2)
    ensures CanArriveWrong(inp, s)
  {
    inp := Server.Input(Config(2, 2), [7, 7], 1);
    s := State(Server.Server(0, seq(2 + HEADER_SIZE, _ => 0), false, false, Line(After(1, Server.TOTAL_NUM, 1), [])),
               Initial(inp.cfg));
    CountersStartAfter(1, 1);
    TransferEndsIff(inp, s);
    WrongFileIff(inp, s);
  }
}
