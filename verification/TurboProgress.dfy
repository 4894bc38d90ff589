/** Progress of the turbo transfer when the server's own loss injector, with a positive loss number, is the
    only loss: how many timeouts are needed. */
module TurboProgress {
  import opened Frame
  import opened Blocks
  import opened LossInjector
  import opened TurboClient
  import opened TurboProtocol
  import Server = TurboServer

  // ---- synchronous sessions

  /** The client reads frames until there are none or it has finished. */
  ghost function ReceiveAll(cfg: Config, c: Client, frames: seq<seq<Byte>>): (c': Client)
    requires Shaped(cfg, c) && AllAcceptable(cfg, frames)
    ensures Shaped(cfg, c')
    decreases |frames|
  {
    if frames == [] || c.finished then c
    else
      assert frames[0] in frames;
      ReceiveAll(cfg, AfterFrame(cfg, c, frames[0]), frames[1..])
  }

  /** Between two rounds: the first pass is over, the server still listens, and everything the client has agrees with the file. */
  ghost predicate Quiet(inp: Server.Input, s: State): (yes: bool)
    ensures yes ==> inp.Valid() && Consistent(inp.cfg, inp.File(), s.client)
  {
    Inv(inp, s) && Genuine(inp, s) && s.server.fileSent && !s.server.exited
  }

  /** The frames that went out between two server states. */
  ghost function NewFrames(inp: Server.Input, before: Server.Server, after: Server.Server): (frames: seq<seq<Byte>>)
    requires inp.Valid() && before.line.wire <= after.line.wire
    requires AllFaithful(inp.cfg, inp.File(), after.line.wire[|before.line.wire|..])
    ensures AllFaithful(inp.cfg, inp.File(), frames)
  {
    after.line.wire[|before.line.wire|..]
  }

  /** The unused slots of an array, of which memset has set a quarter, end its list: it is full, or the first of them is
      negative. */
  ghost predicate EndsList(cfg: Config, rcvd: seq<bool>, leftover: seq<int>)
    requires cfg.bs >= 1 && cfg.Total() <= |rcvd|
  {
    && |leftover| == cfg.bs && Server.QuarterNegative(leftover)
    && (Asked(cfg, rcvd) == cfg.bs || leftover[Asked(cfg, rcvd)] < 0)
  }

  /** Such a list is free of numbers past the last block, and the answers to it are faithful. */
  lemma FilledIsAnswered(inp: Server.Input, s: State, leftover: seq<int>)
    requires Quiet(inp, s) && !s.client.finished && EndsList(inp.cfg, s.client.rcvd, leftover)
    ensures var m := Nack(inp.cfg, s.client.rcvd, leftover);
            && WellFormedNack(inp.cfg, m)
            && AfterTimeout(inp.cfg, s.client, leftover).outbox == s.client.outbox + [m, m]
            && forall a :: a in Server.NackAttempts(inp, m, 0) ==> Faithful(inp.cfg, inp.File(), a.msg)
  {
    NackIsExact(inp.cfg, s.client, leftover);
    Accounting(inp.cfg, s.client);
    var m := Nack(inp.cfg, s.client.rcvd, leftover);
    CallsOk(inp, m, 0);
    Server.EmptyAnswerIff(inp, m, 0);
  }

  /** What goes out for one list of calls, made twice. */
  lemma TwiceFaithful(inp: Server.Input, l: Line<seq<Byte>>, attempts: seq<Attempt<seq<Byte>>>)
    requires inp.Valid() && forall a :: a in attempts ==> Faithful(inp.cfg, inp.File(), a.msg)
    ensures var l' := SendAll(SendAll(l, attempts), attempts);
            l.wire <= l'.wire && AllFaithful(inp.cfg, inp.File(), l'.wire[|l.wire|..])
  {
    SendTwiceExtends(l, attempts);
    var l' := SendAll(SendAll(l, attempts), attempts);
    forall f | f in l'.wire[|l.wire|..]
      ensures Faithful(inp.cfg, inp.File(), f)
    {
      var a :| a in attempts && a.msg == f;
    }
  }

  /** The server state after the client's array has been answered twice. */
  ghost function AnsweredTwice(inp: Server.Input, s: State, leftover: seq<int>): (sv: Server.Server)
    requires Quiet(inp, s) && !s.client.finished && EndsList(inp.cfg, s.client.rcvd, leftover)
    ensures Server.Shaped(inp, sv)
    ensures sv == s.server.(line := sv.line) && s.server.line.wire <= sv.line.wire
    ensures AllFaithful(inp.cfg, inp.File(), sv.line.wire[|s.server.line.wire|..])
  {
    FilledIsAnswered(inp, s, leftover);
    var m := Nack(inp.cfg, s.client.rcvd, leftover);
    TwiceFaithful(inp, s.server.line, Server.NackAttempts(inp, m, 0));
    Server.AfterControl(inp, Server.AfterControl(inp, s.server, m), m)
  }

  /** One timeout of the client, both copies of its array answered, every frame that went out read. */
  ghost function Round(inp: Server.Input, s: State, leftover: seq<int>): State
    requires Quiet(inp, s) && (s.client.finished || EndsList(inp.cfg, s.client.rcvd, leftover))
  {
    if s.client.finished then s
    else
      var sv := AnsweredTwice(inp, s, leftover);
      var c := AfterTimeout(inp.cfg, s.client, leftover);
      State(sv, ReceiveAll(inp.cfg, c, NewFrames(inp, s.server, sv)))
  }

  /** Blocks that are missing. */
  ghost function MissingNow(inp: Server.Input, s: State): nat
    requires Quiet(inp, s)
  {
    |Missing(inp.cfg, s.client.rcvd)|
  }

  /** In a session of rounds, whose elements of fill are what the unused slots hold, every list that is sent is ended. */
  ghost predicate ListsEnd(inp: Server.Input, s: State, fill: seq<seq<int>>)
    requires Quiet(inp, s)
    decreases |fill|
  {
    fill == [] || s.client.finished ||
    (&& EndsList(inp.cfg, s.client.rcvd, fill[0])
     && (RoundStaysQuiet(inp, s, fill[0]);
         ListsEnd(inp, Round(inp, s, fill[0]), fill[1..])))
  }

  /** One round per element of fill. */
  ghost function Rounds(inp: Server.Input, s: State, fill: seq<seq<int>>): (s': State)
    requires Quiet(inp, s) && ListsEnd(inp, s, fill)
    ensures Quiet(inp, s')
    decreases |fill|
  {
    if fill == [] || s.client.finished then s
    else
      RoundStaysQuiet(inp, s, fill[0]);
      Rounds(inp, Round(inp, s, fill[0]), fill[1..])
  }

  /** The unused slots end the list, however many of `missing` blocks are still missing. */
  ghost predicate Fits(cfg: Config, missing: nat, leftover: seq<int>) {
    && |leftover| == cfg.bs && Server.QuarterNegative(leftover)
    && forall i :: 0 <= i < |leftover| && i <= missing ==> leftover[i] < 0
  }

  ghost predicate Fillers(cfg: Config, missing: nat, fill: seq<seq<int>>) {
    forall i :: 0 <= i < |fill| ==> Fits(cfg, missing, fill[i])
  }

  /** If fewer blocks are missing than a quarter of the slots, then what memset sets is enough, whatever the others hold. */
  lemma QuarterFits(cfg: Config, missing: nat, fill: seq<seq<int>>)
    requires missing < cfg.bs / 4
    requires forall i :: 0 <= i < |fill| ==> |fill[i]| == cfg.bs && Server.QuarterNegative(fill[i])
    ensures Fillers(cfg, missing, fill)
  {
  }

  lemma FillersLess(cfg: Config, missing: nat, missing': nat, fill: seq<seq<int>>)
    requires missing' <= missing && Fillers(cfg, missing, fill)
    ensures Fillers(cfg, missing', fill)
  {
    forall i | 0 <= i < |fill|
      ensures Fits(cfg, missing', fill[i])
    {
      assert Fits(cfg, missing, fill[i]);
    }
  }

  lemma {:induction false} FillersEnd(inp: Server.Input, s: State, fill: seq<seq<int>>)
    requires Quiet(inp, s) && Fillers(inp.cfg, MissingNow(inp, s), fill)
    ensures ListsEnd(inp, s, fill)
    decreases |fill|
  {
    if fill != [] && !s.client.finished {
      assert Fits(inp.cfg, MissingNow(inp, s), fill[0]);
      RoundStaysQuiet(inp, s, fill[0]);
      FillersLess(inp.cfg, MissingNow(inp, s), MissingNow(inp, Round(inp, s, fill[0])), fill[1..]);
      FillersEnd(inp, Round(inp, s, fill[0]), fill[1..]);
    }
  }

  /** The first pass, with everything that went out read by the client. */
  ghost function AfterFirstPass(inp: Server.Input, s: State): (s': State)
    requires Init(inp, s)
    ensures Quiet(inp, s')
  {
    var sv := FirstPassHeard(inp, s);
    State(sv, ReceiveAll(inp.cfg, s.client, sv.line.wire))
  }

  /** The server after the first pass, with all it sent faithful. */
  ghost function FirstPassHeard(inp: Server.Input, s: State): (sv: Server.Server)
    requires Init(inp, s)
    ensures sv == Server.RunPass(inp, s.server) && AllFaithful(inp.cfg, inp.File(), sv.line.wire)
    ensures Consistent(inp.cfg, inp.File(), s.client) && Quiet(inp, State(sv, ReceiveAll(inp.cfg, s.client, sv.line.wire)))
  {
    InitInv(inp, s);
    PassFaithful(inp, s.server);
    var sv := Server.RunPass(inp, s.server);
    ReceiveAllConsistent(inp.cfg, inp.File(), s.client, sv.line.wire);
    QuietIs(inp, State(sv, ReceiveAll(inp.cfg, s.client, sv.line.wire)));
    sv
  }

  lemma QuietIs(inp: Server.Input, s: State)
    requires Server.Shaped(inp, s.server) && BufferFaithful(inp, s.server) && s.server.fileSent && !s.server.exited
    requires AllFaithful(inp.cfg, inp.File(), s.server.line.wire)
    requires Consistent(inp.cfg, inp.File(), s.client) && ControlsMeant(inp.cfg, s.client)
    ensures Quiet(inp, s)
  {
  }

  lemma {:induction false} PassFaithful(inp: Server.Input, sv: Server.Server)
    requires Server.Shaped(inp, sv) && BufferFaithful(inp, sv) && AllFaithful(inp.cfg, inp.File(), sv.line.wire)
    ensures var sv' := Server.RunPass(inp, sv);
            BufferFaithful(inp, sv') && AllFaithful(inp.cfg, inp.File(), sv'.line.wire)
    decreases inp.cfg.Total() + 1 - sv.currSeq, if sv.fileSent then 0 else 1
  {
    if !sv.fileSent {
      PassStepFaithful(inp, sv);
      PassFaithful(inp, Server.PassStep(inp, sv));
    }
  }

  /** One faithful frame. */
  lemma ReceiveOne(cfg: Config, file: seq<Byte>, c: Client, f: seq<Byte>)
    requires Consistent(cfg, file, c) && ControlsMeant(cfg, c) && !c.finished && Faithful(cfg, file, f)
    ensures var c1 := AfterFrame(cfg, c, f);
            && Consistent(cfg, file, c1) && ControlsMeant(cfg, c1)
            && c1.rcvd == c.rcvd[DecodedSeq(f) := true]
            && |Missing(cfg, c1.rcvd)| <= |Missing(cfg, c.rcvd)|
            && (!c.rcvd[DecodedSeq(f)] ==> |Missing(cfg, c1.rcvd)| < |Missing(cfg, c.rcvd)|)
  {
    FrameKeepsConsistent(cfg, file, c, f);
    FrameMeant(cfg, c, f);
    MissingAfterSet(cfg, c.rcvd, DecodedSeq(f));
  }

  lemma FrameMeant(cfg: Config, c: Client, f: seq<Byte>)
    requires Shaped(cfg, c) && Placeable(cfg, f) && ControlsMeant(cfg, c) && !c.finished
    ensures ControlsMeant(cfg, AfterFrame(cfg, c, f))
  {
  }

  lemma MissingAfterSet(cfg: Config, rcvd: seq<bool>, s: nat)
    requires cfg.bs >= 1 && s < cfg.Total() <= |rcvd|
    ensures |Missing(cfg, rcvd[s := true])| <= |Missing(cfg, rcvd)|
    ensures !rcvd[s] ==> |Missing(cfg, rcvd[s := true])| < |Missing(cfg, rcvd)|
  {
    if rcvd[s] {
      assert rcvd[s := true] == rcvd;
    } else {
      ClearSetBit(rcvd, s, 0, cfg.Total());
    }
  }

  /** Reading faithful frames keeps the client consistent, clears no bit, and adds only closing marks to what it has sent. */
  lemma {:induction false} ReceiveAllConsistent(cfg: Config, file: seq<Byte>, c: Client, frames: seq<seq<Byte>>)
    requires Consistent(cfg, file, c) && ControlsMeant(cfg, c)
    requires AllFaithful(cfg, file, frames)
    ensures var c' := ReceiveAll(cfg, c, frames);
            && Consistent(cfg, file, c') && ControlsMeant(cfg, c')
            && (c.finished ==> c' == c)
            && (forall j :: 0 <= j < cfg.Total() && c.rcvd[j] ==> c'.rcvd[j])
            && |Missing(cfg, c'.rcvd)| <= |Missing(cfg, c.rcvd)|
    decreases |frames|
  {
    if frames != [] && !c.finished {
      ReceiveOne(cfg, file, c, frames[0]);
      ReceiveAllConsistent(cfg, file, AfterFrame(cfg, c, frames[0]), frames[1..]);
    }
  }

  /** It sets the bits of nothing but the frames read. */
  lemma {:induction false} ReceiveAllSets(cfg: Config, file: seq<Byte>, c: Client, frames: seq<seq<Byte>>, j: nat)
    requires Consistent(cfg, file, c) && ControlsMeant(cfg, c)
    requires AllFaithful(cfg, file, frames)
    requires j < cfg.Total() && ReceiveAll(cfg, c, frames).rcvd[j] && !c.rcvd[j]
    ensures exists f :: f in frames && DecodedSeq(f) == j
    decreases |frames|
  {
    ReceiveOne(cfg, file, c, frames[0]);
    if j == DecodedSeq(frames[0]) {
      assert frames[0] in frames;
    } else {
      ReceiveAllSets(cfg, file, AfterFrame(cfg, c, frames[0]), frames[1..], j);
      var g :| g in frames[1..] && DecodedSeq(g) == j;
      assert g in frames;
    }
  }

  lemma TimeoutStaysConsistent(inp: Server.Input, s: State, leftover: seq<int>)
    requires Quiet(inp, s) && !s.client.finished && |leftover| == inp.cfg.bs
    ensures var c := AfterTimeout(inp.cfg, s.client, leftover);
            ControlsMeant(inp.cfg, c) && Consistent(inp.cfg, inp.File(), c)
  {
    TimeoutClient(inp, s.client, leftover);
  }

  lemma RoundStaysQuiet(inp: Server.Input, s: State, leftover: seq<int>)
    requires Quiet(inp, s) && (s.client.finished || EndsList(inp.cfg, s.client.rcvd, leftover))
    ensures Quiet(inp, Round(inp, s, leftover)) && MissingNow(inp, Round(inp, s, leftover)) <= MissingNow(inp, s)
  {
    if !s.client.finished {
      TimeoutStaysConsistent(inp, s, leftover);
      var sv := AnsweredTwice(inp, s, leftover);
      var c := AfterTimeout(inp.cfg, s.client, leftover);
      ReceiveAllConsistent(inp.cfg, inp.File(), c, NewFrames(inp, s.server, sv));
      WireGrows(inp, s.server.line.wire, sv.line.wire);
      QuietAgain(inp, s, State(sv, ReceiveAll(inp.cfg, c, NewFrames(inp, s.server, sv))));
    }
  }

  lemma QuietAgain(inp: Server.Input, s: State, s': State)
    requires Quiet(inp, s) && s'.server == s.server.(line := s'.server.line) && FaithfulOrEmpty(inp, s'.server.line.wire)
    requires Consistent(inp.cfg, inp.File(), s'.client) && ControlsMeant(inp.cfg, s'.client)
    ensures Quiet(inp, s')
  {
  }

  lemma WireGrows(inp: Server.Input, w: seq<seq<Byte>>, w': seq<seq<Byte>>)
    requires inp.Valid() && FaithfulOrEmpty(inp, w) && w <= w' && AllFaithful(inp.cfg, inp.File(), w'[|w|..])
    ensures FaithfulOrEmpty(inp, w')
  {
    assert w' == w + w'[|w|..];
  }

  // ---- a positive loss number: the measure

  /** The states the counters can be in when the loss number is positive. */
  predicate CountersOk(c: Counters, lossNum: int) {
    1 <= c.packet <= Server.TOTAL_NUM && 1 <= c.loss <= lossNum && (c.packet < Server.TOTAL_NUM ==> c.loss == 1)
  }

  /** How many more datagrams the current burst swallows. */
  function BurstLeft(c: Counters, lossNum: int): int {
    if c.packet == Server.TOTAL_NUM then lossNum - c.loss + 1 else 0
  }

  ghost predicate Uniform(attempts: seq<Attempt<seq<Byte>>>, lossNum: int) {
    forall i :: 0 <= i < |attempts| ==> attempts[i].total == Server.TOTAL_NUM && attempts[i].lossNum == lossNum
  }

  /** Either something goes out, or the burst has shrunk by the whole list. */
  lemma {:induction false} SendAllProgress(l: Line<seq<Byte>>, attempts: seq<Attempt<seq<Byte>>>, lossNum: int)
    requires CountersOk(l.counters, lossNum) && Uniform(attempts, lossNum)
    ensures var l' := SendAll(l, attempts);
            && CountersOk(l'.counters, lossNum)
            && l.wire <= l'.wire
            && (l'.wire == l.wire ==> BurstLeft(l'.counters, lossNum) == BurstLeft(l.counters, lossNum) - |attempts|)
    decreases |attempts|
  {
    if attempts != [] {
      SendAllProgress(Send(l, attempts[0]), attempts[1..], lossNum);
    }
  }

  /** Timeouts that are enough for a number of missing blocks. */
  function EnoughRounds(missing: int, lossNum: int): int {
    missing * (lossNum / 2 + 1)
  }

  function Measure(missing: int, burst: int, lossNum: int): int {
    EnoughRounds(missing, lossNum) + burst / 2
  }

  /** Upper bound on the number of rounds still to come. */
  ghost function Work(inp: Server.Input, s: State): int
    requires Quiet(inp, s)
  {
    Measure(|Missing(inp.cfg, s.client.rcvd)|, BurstLeft(s.server.line.counters, inp.lossNum), inp.lossNum)
  }

  /** A round either fills in a missing block or uses up at least two drops of the burst. */
  lemma RoundMakesProgress(inp: Server.Input, s: State, leftover: seq<int>)
    requires Quiet(inp, s) && !s.client.finished && CountersOk(s.server.line.counters, inp.lossNum)
    requires EndsList(inp.cfg, s.client.rcvd, leftover)
    ensures var s' := Round(inp, s, leftover);
            var before := |Missing(inp.cfg, s.client.rcvd)|;
            && Quiet(inp, s')
            && CountersOk(s'.server.line.counters, inp.lossNum)
            && (|| |Missing(inp.cfg, s'.client.rcvd)| < before
                || (&& |Missing(inp.cfg, s'.client.rcvd)| <= before
                    && BurstLeft(s'.server.line.counters, inp.lossNum) <= BurstLeft(s.server.line.counters, inp.lossNum) - 2))
  {
    RoundStaysQuiet(inp, s, leftover);
    var asked := RoundSendsAnswers(inp, s, leftover);
    var answers := Server.AnswersTo(inp, asked);
    var l := s.server.line;
    SendAllProgress(l, answers, inp.lossNum);
    SendAllProgress(SendAll(l, answers), answers, inp.lossNum);
    var sv := AnsweredTwice(inp, s, leftover);
    var c := AfterTimeout(inp.cfg, s.client, leftover);
    var heard := NewFrames(inp, s.server, sv);
    ReceiveAllConsistent(inp.cfg, inp.File(), c, heard);
    if heard != [] {
      HeardFramesAreWanted(inp, l, asked, c);
      assert heard[0] in heard;
      FirstWantedFrameCounts(inp.cfg, inp.File(), c, heard);
    } else {
      assert sv.line.wire == l.wire;
    }
  }

  /** A round makes the server send its answers for the first missing blocks, twice. */
  lemma RoundSendsAnswers(inp: Server.Input, s: State, leftover: seq<int>) returns (asked: seq<int>)
    requires Quiet(inp, s) && !s.client.finished && EndsList(inp.cfg, s.client.rcvd, leftover)
    ensures |asked| >= 1 && asked == Missing(inp.cfg, s.client.rcvd)[..Asked(inp.cfg, s.client.rcvd)]
    ensures forall i :: 0 <= i < |asked| ==> 0 <= asked[i] < inp.cfg.Total() && !s.client.rcvd[asked[i]]
    ensures ControlsMeant(inp.cfg, AfterTimeout(inp.cfg, s.client, leftover))
    ensures Consistent(inp.cfg, inp.File(), AfterTimeout(inp.cfg, s.client, leftover))
    ensures var answers := Server.AnswersTo(inp, asked);
            && Uniform(answers, inp.lossNum)
            && AnsweredTwice(inp, s, leftover).line == SendAll(SendAll(s.server.line, answers), answers)
  {
    TimeoutStaysConsistent(inp, s, leftover);
    asked := EndedListIsAnswered(inp, s.client, leftover);
  }

  lemma EndedListIsAnswered(inp: Server.Input, c: Client, leftover: seq<int>) returns (asked: seq<int>)
    requires inp.Valid() && Counted(inp.cfg, c) && !c.finished && EndsList(inp.cfg, c.rcvd, leftover)
    ensures |asked| >= 1 && asked == Missing(inp.cfg, c.rcvd)[..Asked(inp.cfg, c.rcvd)]
    ensures forall i :: 0 <= i < |asked| ==> 0 <= asked[i] < inp.cfg.Total() && !c.rcvd[asked[i]]
    ensures Nack(inp.cfg, c.rcvd, leftover)[0] >= 0
    ensures Server.NackAttempts(inp, Nack(inp.cfg, c.rcvd, leftover), 0) == Server.AnswersTo(inp, asked)
  {
    NackIsExact(inp.cfg, c, leftover);
    var m := Nack(inp.cfg, c.rcvd, leftover);
    var k := Asked(inp.cfg, c.rcvd);
    Server.NackAnswersAreExact(inp, m, k);
    asked := m[..k];
  }

  /** What goes out in a round are answers for blocks that were missing when it began. */
  lemma HeardFramesAreWanted(inp: Server.Input, l: Line<seq<Byte>>, asked: seq<int>, c: Client)
    requires inp.Valid() && Shaped(inp.cfg, c)
    requires forall i :: 0 <= i < |asked| ==> 0 <= asked[i] < inp.cfg.Total() && !c.rcvd[asked[i]]
    ensures var answers := Server.AnswersTo(inp, asked);
            var l' := SendAll(SendAll(l, answers), answers);
            && l.wire <= l'.wire
            && forall f :: f in l'.wire[|l.wire|..] ==> Acceptable(inp.cfg, f) && !c.rcvd[DecodedSeq(f)]
  {
    var answers := Server.AnswersTo(inp, asked);
    SendTwiceExtends(l, answers);
    var l' := SendAll(SendAll(l, answers), answers);
    forall f | f in l'.wire[|l.wire|..]
      ensures Acceptable(inp.cfg, f) && !c.rcvd[DecodedSeq(f)]
    {
      var a :| a in answers && a.msg == f;
      AnswerIsWanted(inp, asked, a, c);
    }
  }

  lemma AnswerIsWanted(inp: Server.Input, asked: seq<int>, a: Attempt<seq<Byte>>, c: Client)
    requires inp.Valid() && Shaped(inp.cfg, c)
    requires forall i :: 0 <= i < |asked| ==> 0 <= asked[i] < inp.cfg.Total() && !c.rcvd[asked[i]]
    requires a in Server.AnswersTo(inp, asked)
    ensures Acceptable(inp.cfg, a.msg) && !c.rcvd[DecodedSeq(a.msg)]
  {
    var i :| 0 <= i < |asked| && Server.AnswersTo(inp, asked)[i] == a;
    Server.BlockFrameIsFaithful(inp, asked[i]);
  }

  lemma FirstWantedFrameCounts(cfg: Config, file: seq<Byte>, c: Client, frames: seq<seq<Byte>>)
    requires Consistent(cfg, file, c) && ControlsMeant(cfg, c) && !c.finished && frames != []
    requires AllFaithful(cfg, file, frames)
    requires !c.rcvd[DecodedSeq(frames[0])]
    ensures |Missing(cfg, ReceiveAll(cfg, c, frames).rcvd)| < |Missing(cfg, c.rcvd)|
  {
    ReceiveOne(cfg, file, c, frames[0]);
    ReceiveAllConsistent(cfg, file, AfterFrame(cfg, c, frames[0]), frames[1..]);
  }

  lemma ProductStep(a: int, b: int, k: int)
    requires a < b && k >= 0
    ensures a * k + k <= b * k
  {
    assert (b - a - 1) * k >= 0;
  }

  lemma RoundReducesWork(inp: Server.Input, s: State, leftover: seq<int>)
    requires Quiet(inp, s) && !s.client.finished && CountersOk(s.server.line.counters, inp.lossNum)
    requires EndsList(inp.cfg, s.client.rcvd, leftover)
    ensures var s1 := Round(inp, s, leftover);
            Quiet(inp, s1) && CountersOk(s1.server.line.counters, inp.lossNum) && Work(inp, s1) + 1 <= Work(inp, s)
  {
    RoundMakesProgress(inp, s, leftover);
    var s1 := Round(inp, s, leftover);
    MeasureFalls(|Missing(inp.cfg, s.client.rcvd)|, BurstLeft(s.server.line.counters, inp.lossNum),
                 |Missing(inp.cfg, s1.client.rcvd)|, BurstLeft(s1.server.line.counters, inp.lossNum), inp.lossNum);
  }

  lemma MeasureFalls(missing0: nat, burst0: nat, missing: nat, burst: nat, lossNum: nat)
    requires burst <= lossNum
    requires missing < missing0 || (missing <= missing0 && burst <= burst0 - 2)
    ensures Measure(missing, burst, lossNum) + 1 <= Measure(missing0, burst0, lossNum)
  {
    if missing < missing0 {
      ProductStep(missing, missing0, lossNum / 2 + 1);
    }
  }

  /** While a block is missing, fewer rounds have passed than the bound allows. */
  lemma RoundsLeft(missing0: nat, burst0: nat, missing: nat, burst: nat, lossNum: nat, n: nat)
    requires missing >= 1 && burst0 <= lossNum
    requires Measure(missing, burst, lossNum) + n <= Measure(missing0, burst0, lossNum)
    ensures n < EnoughRounds(missing0, lossNum)
  {
    ProductStep(0, missing, lossNum / 2 + 1);
    assert 0 * (lossNum / 2 + 1) == 0;
  }

  lemma {:induction false} WorkDecreases(inp: Server.Input, s: State, fill: seq<seq<int>>)
    requires Quiet(inp, s) && CountersOk(s.server.line.counters, inp.lossNum) && ListsEnd(inp, s, fill)
    ensures var s' := Rounds(inp, s, fill);
            && CountersOk(s'.server.line.counters, inp.lossNum)
            && (!s'.client.finished ==> Work(inp, s') + |fill| <= Work(inp, s))
    decreases |fill|
  {
    if fill != [] && !s.client.finished {
      RoundReducesWork(inp, s, fill[0]);
      WorkDecreases(inp, Round(inp, s, fill[0]), fill[1..]);
    }
  }

  /** With M blocks missing and a positive loss number L, M * (L / 2 + 1) timeouts are enough, if the unused slots always end
      the list. */
  lemma CompletesWithin(inp: Server.Input, s: State, fill: seq<seq<int>>)
    requires Quiet(inp, s) && CountersOk(s.server.line.counters, inp.lossNum) && ListsEnd(inp, s, fill)
    requires |fill| >= EnoughRounds(MissingNow(inp, s), inp.lossNum)
    ensures Rounds(inp, s, fill).client.finished
    ensures Rounds(inp, s, fill).client.image == inp.File()
  {
    WorkDecreases(inp, s, fill);
    var s' := Rounds(inp, s, fill);
    if s'.client.finished {
      FinishedMeansIdentical(inp.cfg, inp.File(), s'.client);
    } else {
      Accounting(inp.cfg, s'.client);
      RoundsLeft(|Missing(inp.cfg, s.client.rcvd)|, BurstLeft(s.server.line.counters, inp.lossNum),
                 |Missing(inp.cfg, s'.client.rcvd)|, BurstLeft(s'.server.line.counters, inp.lossNum), inp.lossNum, |fill|);
      assert false;
    }
  }

  /** With fewer blocks missing than a quarter of the slots that is so for the program as it is, whatever memory holds. */
  lemma CompletesAsWritten(inp: Server.Input, s: State, fill: seq<seq<int>>)
    requires Quiet(inp, s) && CountersOk(s.server.line.counters, inp.lossNum)
    requires MissingNow(inp, s) < inp.cfg.bs / 4 && |fill| >= EnoughRounds(MissingNow(inp, s), inp.lossNum)
    requires forall i :: 0 <= i < |fill| ==> |fill[i]| == inp.cfg.bs && Server.QuarterNegative(fill[i])
    ensures ListsEnd(inp, s, fill)
    ensures Rounds(inp, s, fill).client.finished && Rounds(inp, s, fill).client.image == inp.File()
  {
    QuarterFits(inp.cfg, MissingNow(inp, s), fill);
    FillersEnd(inp, s, fill);
    CompletesWithin(inp, s, fill);
  }
}
