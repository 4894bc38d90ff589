/** Sessions of rounds are runs of the protocol, in which the client never reads past its buffer. */
module TurboSessions {
  import opened Frame
  import opened Blocks
  import opened LossInjector
  import opened TurboClient
  import opened TurboProtocol
  import opened TurboProgress
  import opened TurboOutcome
  import Paths
  import Server = TurboServer

  lemma ReachesSelf(inp: Server.Input, s: State)
    ensures CleanReaches(inp, s, s)
  {
    Paths.ReachesSelf(CleanSteps(inp), s);
  }

  lemma StepThenReach(inp: Server.Input, s: State, a: Action, s1: State, s2: State)
    requires Next(inp, s, a, s1) && !ReadsPastBuffer(s, a) && CleanReaches(inp, s1, s2)
    ensures CleanReaches(inp, s, s2)
  {
    assert CleanSteps(inp)(s, s1);
    Paths.StepThenReach(CleanSteps(inp), s, s1, s2);
  }

  lemma ReachTrans(inp: Server.Input, s: State, s1: State, s2: State)
    requires CleanReaches(inp, s, s1) && CleanReaches(inp, s1, s2)
    ensures CleanReaches(inp, s, s2)
  {
    Paths.ReachTrans(CleanSteps(inp), s, s1, s2);
  }

  /** The first pass is a path. */
  lemma {:induction false} PassReaches(inp: Server.Input, s: State)
    requires Server.Shaped(inp, s.server) && Shaped(inp.cfg, s.client)
    ensures CleanReaches(inp, s, s.(server := Server.RunPass(inp, s.server)))
    decreases inp.cfg.Total() + 1 - s.server.currSeq, if s.server.fileSent then 0 else 1
  {
    if s.server.fileSent {
      ReachesSelf(inp, s);
    } else {
      var s1 := s.(server := Server.PassStep(inp, s.server));
      PassReaches(inp, s1);
      StepThenReach(inp, s, PassIteration, s1, s.(server := Server.RunPass(inp, s.server)));
    }
  }

  /** Reading frames that are on the wire is a path. */
  lemma {:induction false} ReceiveReaches(inp: Server.Input, s: State, frames: seq<seq<Byte>>)
    requires Server.Shaped(inp, s.server) && Shaped(inp.cfg, s.client) && AllAcceptable(inp.cfg, frames)
    requires forall f :: f in frames ==> f in s.server.line.wire
    ensures CleanReaches(inp, s, s.(client := ReceiveAll(inp.cfg, s.client, frames)))
    decreases |frames|
  {
    if frames == [] || s.client.finished {
      ReachesSelf(inp, s);
    } else {
      assert frames[0] in frames;
      var s1 := s.(client := AfterFrame(inp.cfg, s.client, frames[0]));
      ReceiveReaches(inp, s1, frames[1..]);
      StepThenReach(inp, s, ReceiveFrame(frames[0]), s1, s.(client := ReceiveAll(inp.cfg, s.client, frames)));
    }
  }

  lemma FirstPassReaches(inp: Server.Input, s: State)
    requires Init(inp, s)
    ensures CleanReaches(inp, s, AfterFirstPass(inp, s))
  {
    var s1 := s.(server := Server.RunPass(inp, s.server));
    PassReaches(inp, s);
    PassFaithful(inp, s.server);
    InitInv(inp, s);
    ReceiveReaches(inp, s1, s1.server.line.wire);
    ReachTrans(inp, s, s1, AfterFirstPass(inp, s));
  }

  /** A round is a path: the timeout, both copies of the array, then the frames. */
  lemma RoundReaches(inp: Server.Input, s: State, leftover: seq<int>)
    requires Quiet(inp, s) && (s.client.finished || EndsList(inp.cfg, s.client.rcvd, leftover))
    ensures CleanReaches(inp, s, Round(inp, s, leftover))
  {
    if s.client.finished {
      ReachesSelf(inp, s);
    } else {
      NackIsExact(inp.cfg, s.client, leftover);
      Accounting(inp.cfg, s.client);
      var m := Nack(inp.cfg, s.client.rcvd, leftover);
      var c := AfterTimeout(inp.cfg, s.client, leftover);
      assert c.outbox[|s.client.outbox|] == m;
      var s1 := State(s.server, c);
      var s2 := State(Server.AfterControl(inp, s.server, m), c);
      var s3 := State(Server.AfterControl(inp, s2.server, m), c);
      assert s3.server == AnsweredTwice(inp, s, leftover);
      var s4 := Round(inp, s, leftover);
      ReceiveReaches(inp, s3, NewFrames(inp, s.server, s3.server));
      assert Next(inp, s2, HandleControl(m), s3);
      StepThenReach(inp, s2, HandleControl(m), s3, s4);
      assert Next(inp, s1, HandleControl(m), s2);
      StepThenReach(inp, s1, HandleControl(m), s2, s4);
      StepThenReach(inp, s, Timeout(leftover), s1, s4);
    }
  }

  lemma {:induction false} RoundsReach(inp: Server.Input, s: State, fill: seq<seq<int>>)
    requires Quiet(inp, s) && ListsEnd(inp, s, fill)
    ensures CleanReaches(inp, s, Rounds(inp, s, fill))
    decreases |fill|
  {
    if fill == [] || s.client.finished {
      ReachesSelf(inp, s);
    } else {
      RoundStaysQuiet(inp, s, fill[0]);
      RoundReaches(inp, s, fill[0]);
      RoundsReach(inp, Round(inp, s, fill[0]), fill[1..]);
      ReachTrans(inp, s, Round(inp, s, fill[0]), Rounds(inp, s, fill));
    }
  }
}
