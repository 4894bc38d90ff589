/** The sending side of the turbo transfer: one pass over the file, then an answer to every
    control array until the closing mark arrives. Every datagram goes through the loss injector. */
module TurboServer {
  import opened Frame
  import opened Blocks
  import opened LossInjector
  import Client = TurboClient

  /** The stretch of dropsendto calls that the server uses for every frame. */
  const TOTAL_NUM: int := 1000

  // ---- specification on values

  datatype Server = Server(currSeq: nat, sendData: seq<Byte>, fileSent: bool, exited: bool, line: Line<seq<Byte>>)

  /** What the server is given: the block layout, the mapped pages (the file, then whatever follows it
      in the last block), and the loss number. */
  datatype Input = Input(cfg: Config, pages: seq<Byte>, lossNum: int) {
    ghost predicate Valid() {
      cfg.Valid() && |pages| == cfg.Total() * cfg.bs
    }

    /** The file itself. */
    ghost function File(): (f: seq<Byte>)
      requires Valid()
      ensures |f| == cfg.size
    {
      TotalBounds(cfg);
      pages[..cfg.size]
    }
  }

  ghost predicate Shaped(inp: Input, sv: Server) {
    inp.Valid() && |sv.sendData| == inp.cfg.bs + HEADER_SIZE && sv.currSeq <= inp.cfg.Total() + 1
  }

  /** The frame of the first pass: a whole block of the mapping, past the end of the file for the last one. */
  ghost function PassFrame(inp: Input, j: nat): (f: seq<Byte>)
    requires inp.Valid() && j < inp.cfg.Total()
    ensures |f| == inp.cfg.bs + HEADER_SIZE
  {
    BlockFits(inp.cfg, j);
    Pack(j, inp.pages[j * inp.cfg.bs..j * inp.cfg.bs + inp.cfg.bs])
  }

  /** One iteration of the inner loop of the first pass. */
  ghost function PassStep(inp: Input, sv: Server): (sv': Server)
    requires Shaped(inp, sv)
    ensures Shaped(inp, sv')
  {
    if sv.currSeq == inp.cfg.Total() + 1 then sv.(fileSent := true)
    else
      var buffer := if sv.currSeq < inp.cfg.Total() then PassFrame(inp, sv.currSeq) else sv.sendData;
      sv.(currSeq := sv.currSeq + 1, sendData := buffer, line := Send(sv.line, Attempt(buffer, TOTAL_NUM, inp.lossNum)))
  }

  /** Iterations until the end is noticed. */
  ghost function RunPass(inp: Input, sv: Server): (sv': Server)
    requires Shaped(inp, sv)
    ensures Shaped(inp, sv') && sv'.fileSent && sv'.exited == sv.exited
    decreases inp.cfg.Total() + 1 - sv.currSeq, if sv.fileSent then 0 else 1
  {
    if sv.fileSent then sv else RunPass(inp, PassStep(inp, sv))
  }

  /** The frame that answers a request for block e: the block's bytes, then zeros. */
  ghost function BlockFrame(inp: Input, e: nat): (f: seq<Byte>)
    requires inp.Valid() && e < inp.cfg.Total()
    ensures |f| == inp.cfg.bs + HEADER_SIZE
  {
    BlockFits(inp.cfg, e);
    Pack(e, Block(inp.cfg, inp.File(), e) + Zeros(inp.cfg.bs - inp.cfg.BlockLen(e)))
  }

  /** The dropsendto call for one entry of a control array; numbers past the last block give an empty datagram. */
  ghost function EntryAttempt(inp: Input, e: nat): Attempt<seq<Byte>>
    requires inp.Valid()
  {
    if e < inp.cfg.Total() then Attempt(BlockFrame(inp, e), TOTAL_NUM, inp.lossNum)
    else Attempt([], 10, 9)
  }

  /** The calls for the entries from index i up to the first negative one. */
  ghost function NackAttempts(inp: Input, m: seq<int>, i: nat): seq<Attempt<seq<Byte>>>
    requires inp.Valid() && i <= |m|
    decreases |m| - i
  {
    if i == |m| || m[i] < 0 then [] else [EntryAttempt(inp, m[i])] + NackAttempts(inp, m, i + 1)
  }

  /** A control message as the server reads it: the closing mark, or a full array. */
  predicate ControlShaped(cfg: Config, m: seq<int>) {
    |m| >= 1 && (m[0] == Client.DONE || |m| == cfg.bs)
  }

  /** One call of nackhandle. */
  ghost function AfterControl(inp: Input, sv: Server, m: seq<int>): (sv': Server)
    requires Shaped(inp, sv) && ControlShaped(inp.cfg, m)
    ensures Shaped(inp, sv')
  {
    if m[0] == Client.DONE then sv.(exited := true)
    else sv.(line := SendAll(sv.line, NackAttempts(inp, m, 0)))
  }

  /** The main loop after the first pass, on the control messages in the order they are received. */
  ghost function RunControl(inp: Input, sv: Server, inbox: seq<seq<int>>): Server
    requires Shaped(inp, sv)
    requires forall k :: 0 <= k < |inbox| ==> ControlShaped(inp.cfg, inbox[k])
    decreases |inbox|
  {
    if inbox == [] || sv.exited then sv
    else RunControl(inp, AfterControl(inp, sv, inbox[0]), inbox[1..])
  }

  // ---- the program

  class TurboServer {
    const cfg: Config
    const fileMap: array<Byte>
    const lossNum: int
    const sendData: array<Byte>
    var currSeq: nat
    var fileSent: bool
    var exited: bool
    var packetCounter: int
    var lossCounter: int
    /** Datagrams handed to sendto, oldest first. */
    var wire: seq<seq<Byte>>

    ghost function In(): Input
      reads this, fileMap
    {
      Input(cfg, fileMap[..], lossNum)
    }

    ghost function Abs(): Server
      reads this, sendData
    {
      Server(currSeq, sendData[..], fileSent, exited, Line(Counters(packetCounter, lossCounter), wire))
    }

    ghost predicate Valid()
      reads this, fileMap, sendData
    {
      fileMap != sendData && Shaped(In(), Abs())
    }

    constructor (cfg: Config, fileMap: array<Byte>, lossNum: int, packetCounter: int, lossCounter: int)
      requires cfg.Valid() && fileMap.Length == cfg.Total() * cfg.bs
      ensures Valid() && this.cfg == cfg && this.fileMap == fileMap && this.lossNum == lossNum && fresh(sendData)
      ensures currSeq == 0 && !fileSent && !exited
      ensures Abs().line == Line(Counters(packetCounter, lossCounter), [])
    {
      this.cfg := cfg;
      this.fileMap := fileMap;
      this.lossNum := lossNum;
      sendData := new Byte[cfg.bs + HEADER_SIZE](_ => 0);
      currSeq := 0;
      fileSent := false;
      exited := false;
      this.packetCounter := packetCounter;
      this.lossCounter := lossCounter;
      wire := [];
      new;
    }

    method DropSendTo(message: seq<Byte>, totalnum: int, lossnum: int)
      modifies this`packetCounter, this`lossCounter, this`wire
      ensures Abs().line == Send(old(Abs().line), Attempt(message, totalnum, lossnum))
    {
      if packetCounter < totalnum {
        packetCounter := packetCounter + 1;
      } else if packetCounter == totalnum {
        if lossCounter == lossnum {
          packetCounter := 1;
          lossCounter := 1;
          return;
        } else {
          lossCounter := lossCounter + 1;
          return;
        }
      }
      wire := wire + [message];
    }

    /** Header and block are copied into the send buffer. */
    method FillPassFrame()
      requires Valid() && currSeq < cfg.Total()
      modifies sendData
      ensures sendData[..] == PassFrame(In(), currSeq)
    {
      BlockFits(cfg, currSeq);
      var off := currSeq * cfg.bs;
      var seqChar := Header(currSeq);
      forall i | 0 <= i < HEADER_SIZE {
        sendData[i] := seqChar[i];
      }
      forall i | 0 <= i < cfg.bs {
        sendData[HEADER_SIZE + i] := fileMap[off + i];
      }
      assert sendData[..HEADER_SIZE] == seqChar;
      assert sendData[HEADER_SIZE..] == fileMap[off..off + cfg.bs];
      assert sendData[..] == sendData[..HEADER_SIZE] + sendData[HEADER_SIZE..];
    }

    /** The body of the inner loop of the first pass. */
    method PassIteration()
      requires Valid()
      modifies this`currSeq, this`fileSent, this`packetCounter, this`lossCounter, this`wire, sendData
      ensures Valid()
      ensures Abs() == PassStep(In(), old(Abs()))
    {
      if currSeq == cfg.Total() + 1 {
        fileSent := true;
        return;
      }
      if currSeq < cfg.Total() {
        FillPassFrame();
        DropSendTo(sendData[..], TOTAL_NUM, lossNum);
        currSeq := currSeq + 1;
      } else {
        TotalBounds(cfg);
        if cfg.size - currSeq * cfg.bs <= 0 {
          DropSendTo(sendData[..], TOTAL_NUM, lossNum);
          currSeq := currSeq + 1;
        } else {
          assert false;
        }
      }
    }

    /** The first pass: an inner loop of `size` iterations, repeated until the end has been noticed. */
    method FirstPass()
      requires Valid()
      modifies this`currSeq, this`fileSent, this`packetCounter, this`lossCounter, this`wire, sendData
      ensures Valid()
      ensures Abs() == RunPass(In(), old(Abs()))
    {
      while !fileSent
        invariant Valid() && exited == old(exited)
        invariant RunPass(In(), Abs()) == RunPass(In(), old(Abs()))
        decreases cfg.Total() + 1 - currSeq, if fileSent then 0 else 1
      {
        var i := 0;
        ghost var start := currSeq;
        while i < cfg.size && !fileSent
          invariant 0 <= i <= cfg.size
          invariant Valid() && exited == old(exited)
          invariant RunPass(In(), Abs()) == RunPass(In(), old(Abs()))
          invariant currSeq >= start && (i == 0 || fileSent || currSeq > start)
          invariant fileSent ==> start <= cfg.Total() + 1
        {
          PassIteration();
          i := i + 1;
        }
      }
    }

    /** Header, block and zero padding for an answer. */
    method FillAnswer(e: nat) returns (frame: seq<Byte>)
      requires Valid() && e < cfg.Total()
      ensures frame == BlockFrame(In(), e)
    {
      BlockFits(cfg, e);
      TotalBounds(cfg);
      var data := new Byte[cfg.bs](_ => 0);
      var off := e * cfg.bs;
      var n := if e < cfg.Total() - 1 then cfg.bs else cfg.size - off;
      forall i | 0 <= i < n {
        data[i] := fileMap[off + i];
      }
      assert data[..n] == fileMap[off..off + n];
      SliceOfSlice(fileMap[..], off, n, n, cfg.size);
      PaddedWithZeros(data[..], n);
      frame := Header(e) + data[..];
    }

    /** The answer to one entry of a control array. */
    method AnswerEntry(e: nat)
      requires Valid()
      modifies this`packetCounter, this`lossCounter, this`wire
      ensures Valid()
      ensures Abs() == old(Abs()).(line := Send(old(Abs().line), EntryAttempt(In(), e)))
    {
      if e < cfg.Total() {
        var frame := FillAnswer(e);
        DropSendTo(frame, TOTAL_NUM, lossNum);
      } else {
        DropSendTo([], 10, 9);
      }
    }

    /** One control message: the closing mark, or a list of blocks to send again. */
    method NackHandle(control: seq<int>) returns (done: bool)
      requires Valid() && ControlShaped(cfg, control)
      modifies this`packetCounter, this`lossCounter, this`wire
      ensures Valid()
      ensures done <==> control[0] == Client.DONE
      ensures done ==> Abs() == old(Abs())
      ensures !done ==> Abs() == AfterControl(In(), old(Abs()), control)
    {
      if control[0] == Client.DONE {
        return true;
      }
      var i := 0;
      ghost var whole := SendAll(Abs().line, NackAttempts(In(), control, 0));
      while i < cfg.bs && control[i] >= 0
        invariant 0 <= i <= cfg.bs == |control|
        invariant Valid() && Abs() == old(Abs()).(line := Abs().line)
        invariant SendAll(Abs().line, NackAttempts(In(), control, i)) == whole
      {
        AnswersPeel(In(), Abs().line, control, i);
        AnswerEntry(control[i]);
        i := i + 1;
      }
      return false;
    }

    /** The main loop after the handshake, fed with the control messages that arrive. It stops at the
        closing mark, or waits when no message is left. */
    method Serve(inbox: seq<seq<int>>)
      requires Valid() && !exited
      requires forall k :: 0 <= k < |inbox| ==> ControlShaped(cfg, inbox[k])
      modifies this, sendData
      ensures Valid()
      ensures Abs() == RunControl(In(), RunPass(In(), old(Abs())), inbox)
      ensures exited <==> exists k :: 0 <= k < |inbox| && inbox[k][0] == -1
      ensures forall n :: UpToClosing(inbox, n) ==>
                Abs().line == SendAll(RunPass(In(), old(Abs())).line, ControlCalls(In(), inbox, n))
    {
      FirstPass();
      var k := 0;
      while k < |inbox| && !exited
        invariant 0 <= k <= |inbox| && Valid()
        invariant RunControl(In(), Abs(), inbox[k..]) == RunControl(In(), RunPass(In(), old(Abs())), inbox)
        decreases |inbox| - k
      {
        assert inbox[k..][0] == inbox[k] && inbox[k..][1..] == inbox[k + 1..];
        var done := NackHandle(inbox[k]);
        if done {
          exited := true;
        }
        k := k + 1;
      }
      ControlsAreExact(In(), RunPass(In(), old(Abs())), inbox);
    }
  }

  /** The first n messages are arrays, and then comes the closing mark or no message. */
  ghost predicate UpToClosing(inbox: seq<seq<int>>, n: int) {
    && 0 <= n <= |inbox| && (forall k :: 0 <= k < |inbox| ==> |inbox[k]| >= 1)
    && (forall k :: 0 <= k < n ==> inbox[k][0] != -1)
    && (n < |inbox| ==> inbox[n][0] == -1)
  }

  /** The calls for the first n messages, put together. */
  ghost function ControlCalls(inp: Input, inbox: seq<seq<int>>, n: nat): seq<Attempt<seq<Byte>>>
    requires inp.Valid() && n <= |inbox|
  {
    if n == 0 then [] else ControlCalls(inp, inbox, n - 1) + NackAttempts(inp, inbox[n - 1], 0)
  }

  lemma {:induction false} FindClosing(inbox: seq<seq<int>>, i: nat) returns (n: nat)
    requires i <= |inbox| && forall k :: 0 <= k < |inbox| ==> |inbox[k]| >= 1
    requires forall k :: 0 <= k < i ==> inbox[k][0] != -1
    ensures UpToClosing(inbox, n)
    decreases |inbox| - i
  {
    if i == |inbox| || inbox[i][0] == -1 {
      n := i;
    } else {
      n := FindClosing(inbox, i + 1);
    }
  }

  lemma {:induction false} ControlsFrom(inp: Input, l: Line<seq<Byte>>, sv: Server, inbox: seq<seq<int>>, i: nat, n: nat)
    requires Shaped(inp, sv) && !sv.exited && UpToClosing(inbox, n) && i <= n
    requires forall k :: 0 <= k < |inbox| ==> ControlShaped(inp.cfg, inbox[k])
    requires sv.line == SendAll(l, ControlCalls(inp, inbox, i))
    ensures RunControl(inp, sv, inbox[i..])
         == sv.(exited := n < |inbox|, line := SendAll(l, ControlCalls(inp, inbox, n)))
    decreases n - i
  {
    if i < |inbox| {
      ControlPeel(inp, sv, inbox, i);
      if i < n {
        ControlMakes(inp, l, sv, inbox, i);
        ControlsFrom(inp, l, AfterControl(inp, sv, inbox[i]), inbox, i + 1, n);
      } else {
        LeftAlone(inp, sv.(exited := true), inbox[i + 1..]);
      }
    }
  }

  lemma ControlMakes(inp: Input, l: Line<seq<Byte>>, sv: Server, inbox: seq<seq<int>>, i: nat)
    requires Shaped(inp, sv) && i < |inbox| && ControlShaped(inp.cfg, inbox[i]) && inbox[i][0] != -1
    requires sv.line == SendAll(l, ControlCalls(inp, inbox, i))
    ensures AfterControl(inp, sv, inbox[i]) == sv.(line := SendAll(l, ControlCalls(inp, inbox, i + 1)))
  {
    SendAllAppend(l, ControlCalls(inp, inbox, i), NackAttempts(inp, inbox[i], 0));
  }

  lemma ControlPeel(inp: Input, sv: Server, inbox: seq<seq<int>>, i: nat)
    requires Shaped(inp, sv) && !sv.exited && i < |inbox|
    requires forall k :: 0 <= k < |inbox| ==> ControlShaped(inp.cfg, inbox[k])
    ensures RunControl(inp, sv, inbox[i..]) == RunControl(inp, AfterControl(inp, sv, inbox[i]), inbox[i + 1..])
  {
    var rest := inbox[i..];
    assert rest[0] == inbox[i] && rest[1..] == inbox[i + 1..];
  }

  lemma LeftAlone(inp: Input, sv: Server, inbox: seq<seq<int>>)
    requires Shaped(inp, sv) && sv.exited && forall k :: 0 <= k < |inbox| ==> ControlShaped(inp.cfg, inbox[k])
    ensures RunControl(inp, sv, inbox) == sv
  {
  }

  /** The loop over the control messages is left exactly if one of them is the closing mark, and it makes the calls for all
      messages before the first such one, in order, and no others. */
  lemma ControlsAreExact(inp: Input, sv: Server, inbox: seq<seq<int>>)
    requires Shaped(inp, sv) && !sv.exited && forall k :: 0 <= k < |inbox| ==> ControlShaped(inp.cfg, inbox[k])
    ensures var sv' := RunControl(inp, sv, inbox);
            && (sv'.exited <==> exists k :: 0 <= k < |inbox| && inbox[k][0] == -1)
            && sv' == sv.(exited := sv'.exited, line := sv'.line)
            && forall n :: UpToClosing(inbox, n) ==> sv'.line == SendAll(sv.line, ControlCalls(inp, inbox, n))
  {
    var n0 := FindClosing(inbox, 0);
    assert inbox[0..] == inbox;
    forall n | UpToClosing(inbox, n)
      ensures RunControl(inp, sv, inbox) == sv.(exited := n < |inbox|, line := SendAll(sv.line, ControlCalls(inp, inbox, n)))
    {
      ControlsFrom(inp, sv.line, sv, inbox, 0, n);
    }
    assert UpToClosing(inbox, n0);
  }

  /** From the first frame to the last answer: the first pass, block by block, and then these calls. */
  lemma WholeTransfer(inp: Input, sv: Server, inbox: seq<seq<int>>, n: nat)
    requires Shaped(inp, sv) && !sv.exited && !sv.fileSent && sv.currSeq == 0 && UpToClosing(inbox, n)
    requires forall k :: 0 <= k < |inbox| ==> ControlShaped(inp.cfg, inbox[k])
    ensures RunControl(inp, RunPass(inp, sv), inbox).line
         == SendAll(sv.line, PassAttempts(inp, 0) + ControlCalls(inp, inbox, n))
  {
    TotalBounds(inp.cfg);
    FirstPassIsExact(inp, sv);
    ControlsAreExact(inp, RunPass(inp, sv), inbox);
    SendAllAppend(sv.line, PassAttempts(inp, 0), ControlCalls(inp, inbox, n));
  }

  /** Sending the answers from entry i on starts with the answer to entry i. */
  lemma AnswersPeel(inp: Input, l: Line<seq<Byte>>, m: seq<int>, i: nat)
    requires inp.Valid() && i < |m| && m[i] >= 0
    ensures SendAll(l, NackAttempts(inp, m, i)) == SendAll(Send(l, EntryAttempt(inp, m[i])), NackAttempts(inp, m, i + 1))
  {
    assert NackAttempts(inp, m, i)[1..] == NackAttempts(inp, m, i + 1);
  }

  lemma PaddedWithZeros(data: seq<Byte>, n: nat)
    requires n <= |data| && forall i :: n <= i < |data| ==> data[i] == 0
    ensures data == data[..n] + Zeros(|data| - n)
  {
  }

  // ---- what goes out

  lemma SliceOfSlice<T>(s: seq<T>, off: nat, len: nat, n: nat, m: nat)
    requires off + len <= |s| && n <= len && off + n <= m <= |s|
    ensures s[off..off + len][..n] == s[..m][off..off + n]
  {
  }

  /** Any frame with this header whose data starts with the block is faithful. */
  lemma PackedIsFaithful(cfg: Config, file: seq<Byte>, e: nat, data: seq<Byte>)
    requires cfg.Valid() && |file| == cfg.size && e < cfg.Total() && |data| == cfg.bs
    requires 0 <= cfg.BlockLen(e) <= cfg.bs && data[..cfg.BlockLen(e)] == Block(cfg, file, e)
    ensures Client.Faithful(cfg, file, Pack(e, data)) && DecodedSeq(Pack(e, data)) == e
  {
    RoundTrip(e, data);
  }

  /** First-pass frames carry their block, whatever the mapping holds past the end of the file. */
  lemma PassFrameIsFaithful(inp: Input, j: nat)
    requires inp.Valid() && j < inp.cfg.Total()
    ensures Client.Faithful(inp.cfg, inp.File(), PassFrame(inp, j)) && DecodedSeq(PassFrame(inp, j)) == j
    ensures j * inp.cfg.bs + inp.cfg.bs <= |inp.pages|
    ensures DecodedData(PassFrame(inp, j), inp.cfg.bs) == inp.pages[j * inp.cfg.bs..j * inp.cfg.bs + inp.cfg.bs]
  {
    BlockFits(inp.cfg, j);
    var off := j * inp.cfg.bs;
    var data := inp.pages[off..off + inp.cfg.bs];
    SliceOfSlice(inp.pages, off, inp.cfg.bs, inp.cfg.BlockLen(j), inp.cfg.size);
    PackedIsFaithful(inp.cfg, inp.File(), j, data);
    RoundTrip(j, data);
  }

  /** Answers carry their block followed by zeros. */
  lemma BlockFrameIsFaithful(inp: Input, e: nat)
    requires inp.Valid() && e < inp.cfg.Total()
    ensures Client.Faithful(inp.cfg, inp.File(), BlockFrame(inp, e)) && DecodedSeq(BlockFrame(inp, e)) == e
    ensures inp.cfg.BlockLen(e) <= inp.cfg.bs
    ensures DecodedData(BlockFrame(inp, e), inp.cfg.bs)
         == Block(inp.cfg, inp.File(), e) + Zeros(inp.cfg.bs - inp.cfg.BlockLen(e))
  {
    BlockFits(inp.cfg, e);
    var data := Block(inp.cfg, inp.File(), e) + Zeros(inp.cfg.bs - inp.cfg.BlockLen(e));
    assert data[..inp.cfg.BlockLen(e)] == Block(inp.cfg, inp.File(), e);
    PackedIsFaithful(inp.cfg, inp.File(), e, data);
    RoundTrip(e, data);
  }

  /** The first pass from block j on: each frame once, in order, and the last one a second time. */
  ghost function PassAttempts(inp: Input, j: nat): seq<Attempt<seq<Byte>>>
    requires inp.Valid() && j <= inp.cfg.Total()
    decreases inp.cfg.Total() - j
  {
    TotalBounds(inp.cfg);
    if j == inp.cfg.Total() then [Attempt(PassFrame(inp, j - 1), TOTAL_NUM, inp.lossNum)]
    else [Attempt(PassFrame(inp, j), TOTAL_NUM, inp.lossNum)] + PassAttempts(inp, j + 1)
  }

  /** The whole first pass attempts blocks 0, 1, ... once each in order plus one trailing resend, and nothing else. */
  lemma {:induction false} FirstPassIsExact(inp: Input, sv: Server)
    requires Shaped(inp, sv) && !sv.fileSent && sv.currSeq <= inp.cfg.Total()
    requires sv.currSeq == inp.cfg.Total() ==> sv.sendData == PassFrame(inp, inp.cfg.Total() - 1)
    ensures var sv' := RunPass(inp, sv);
            && sv'.currSeq == inp.cfg.Total() + 1
            && sv'.sendData == PassFrame(inp, inp.cfg.Total() - 1)
            && sv'.line == SendAll(sv.line, PassAttempts(inp, sv.currSeq))
    decreases inp.cfg.Total() - sv.currSeq
  {
    TotalBounds(inp.cfg);
    var sv1 := PassStep(inp, sv);
    if sv.currSeq < inp.cfg.Total() {
      FirstPassIsExact(inp, sv1);
      assert PassAttempts(inp, sv.currSeq)[1..] == PassAttempts(inp, sv.currSeq + 1);
    } else {
      assert PassStep(inp, sv1) == sv1.(fileSent := true);
      assert RunPass(inp, sv) == sv1.(fileSent := true);
      assert SendAll(sv.line, PassAttempts(inp, sv.currSeq)) == Send(sv.line, PassAttempts(inp, sv.currSeq)[0]);
    }
  }

  /** The state after n turns of the inner loop. */
  ghost function PassSteps(inp: Input, sv: Server, n: nat): (sv': Server)
    requires Shaped(inp, sv)
    ensures Shaped(inp, sv')
  {
    if n == 0 then sv else PassStep(inp, PassSteps(inp, sv, n - 1))
  }

  /** Call number i of the first pass: block i's frame, and in the end the last one once more. */
  ghost function PassCall(inp: Input, i: nat): Attempt<seq<Byte>>
    requires inp.Valid() && i <= inp.cfg.Total()
  {
    TotalBounds(inp.cfg);
    Attempt(PassFrame(inp, if i < inp.cfg.Total() then i else inp.cfg.Total() - 1), 1000, inp.lossNum)
  }

  lemma {:induction false} PassAttemptsAt(inp: Input, j: nat, i: nat)
    requires inp.Valid() && j <= i <= inp.cfg.Total()
    ensures |PassAttempts(inp, j)| == inp.cfg.Total() + 1 - j && PassAttempts(inp, j)[i - j] == PassCall(inp, i)
    decreases inp.cfg.Total() - j
  {
    if j < inp.cfg.Total() {
      PassAttemptsAt(inp, j + 1, if i == j then j + 1 else i);
    }
  }

  /** After n turns n calls have been made. */
  ghost predicate HasMade(inp: Input, l: Line<seq<Byte>>, sv: Server, n: nat) {
    && Shaped(inp, sv) && n <= inp.cfg.Total() + 1 == |PassAttempts(inp, 0)|
    && sv.currSeq == n && !sv.fileSent
    && sv.line == SendAll(l, PassAttempts(inp, 0)[..n])
    && (n >= 1 ==> sv.sendData == PassCall(inp, n - 1).msg)
  }

  lemma OneTurn(inp: Input, l: Line<seq<Byte>>, sv: Server, n: nat)
    requires HasMade(inp, l, sv, n) && n <= inp.cfg.Total()
    ensures HasMade(inp, l, PassStep(inp, sv), n + 1)
  {
    TotalBounds(inp.cfg);
    var calls := PassAttempts(inp, 0);
    PassAttemptsAt(inp, 0, n);
    assert calls[..n + 1] == calls[..n] + [calls[n]];
    SendAllLast(l, calls[..n + 1]);
    assert calls[..n + 1][..n] == calls[..n];
  }

  /** Turn by turn: each of the first numPackets + 1 makes its call, and one more finds that there is nothing left. */
  lemma {:induction false} PassTakes(inp: Input, sv: Server, n: nat)
    requires Shaped(inp, sv) && sv.currSeq == 0 && !sv.fileSent && n <= inp.cfg.Total() + 1
    ensures HasMade(inp, sv.line, PassSteps(inp, sv, n), n)
    ensures n == inp.cfg.Total() + 1 ==>
              PassSteps(inp, sv, n + 1) == PassSteps(inp, sv, n).(fileSent := true) == RunPass(inp, PassSteps(inp, sv, n))
  {
    PassAttemptsAt(inp, 0, 0);
    if n == 0 {
      assert PassAttempts(inp, 0)[..0] == [];
    } else {
      PassTakes(inp, sv, n - 1);
      OneTurn(inp, sv.line, PassSteps(inp, sv, n - 1), n - 1);
    }
  }

  /** The server's calls for a list of requested blocks. */
  ghost function AnswersTo(inp: Input, asked: seq<int>): (r: seq<Attempt<seq<Byte>>>)
    requires inp.Valid() && forall i :: 0 <= i < |asked| ==> 0 <= asked[i] < inp.cfg.Total()
    ensures |r| == |asked|
  {
    seq(|asked|, i requires 0 <= i < |asked| => Attempt(BlockFrame(inp, asked[i]), TOTAL_NUM, inp.lossNum))
  }

  lemma AnswersToPeel(inp: Input, m: seq<int>, i: nat, k: nat)
    requires inp.Valid() && i < k <= |m|
    requires forall x :: i <= x < k ==> 0 <= m[x] < inp.cfg.Total()
    ensures AnswersTo(inp, m[i..k]) == [EntryAttempt(inp, m[i])] + AnswersTo(inp, m[i + 1..k])
  {
    assert m[i..k][1..] == m[i + 1..k];
  }

  lemma ConsAppend<T>(x: T, a: seq<T>, b: seq<T>)
    ensures [x] + (a + b) == ([x] + a) + b
  {
  }

  /** Requests in the entries from i up to k are answered with exactly one frame each, in order, before the rest. */
  lemma {:induction false} AnswersComeFirst(inp: Input, m: seq<int>, i: nat, k: nat)
    requires inp.Valid() && i <= k <= |m|
    requires forall x :: i <= x < k ==> 0 <= m[x] < inp.cfg.Total()
    ensures NackAttempts(inp, m, i) == AnswersTo(inp, m[i..k]) + NackAttempts(inp, m, k)
    decreases k - i
  {
    if i < k {
      AnswersComeFirst(inp, m, i + 1, k);
      AnswersToPeel(inp, m, i, k);
      ConsAppend(EntryAttempt(inp, m[i]), AnswersTo(inp, m[i + 1..k]), NackAttempts(inp, m, k));
    }
  }

  /** An array is answered by one call for each entry up to the first negative one, in order: a frame for a block of the file,
      an empty datagram for any other number, as CallNumbers says. */
  lemma {:induction false} OneCallPerEntry(inp: Input, m: seq<int>, i: nat, n: nat)
    requires inp.Valid() && i <= n <= |m| && (n < |m| ==> m[n] < 0)
    requires forall x :: i <= x < n ==> m[x] >= 0
    ensures |NackAttempts(inp, m, i)| == n - i
    ensures forall x :: i <= x < n ==> NackAttempts(inp, m, i)[x - i] == EntryAttempt(inp, m[x])
    decreases n - i
  {
    if i < n {
      OneCallPerEntry(inp, m, i + 1, n);
      var rest := NackAttempts(inp, m, i + 1);
      assert NackAttempts(inp, m, i) == [EntryAttempt(inp, m[i])] + rest;
    }
  }

  /** The numbers with which the two kinds of datagrams are handed to dropsendto. */
  lemma CallNumbers(inp: Input, e: nat)
    requires inp.Valid()
    ensures EntryAttempt(inp, e)
         == if e < inp.cfg.Total() then Attempt(BlockFrame(inp, e), 1000, inp.lossNum) else Attempt([], 10, 9)
  {
  }

  /** The empty datagram is attempted exactly when a number past the last block comes before the first negative entry. */
  lemma {:induction false} EmptyAnswerIff(inp: Input, m: seq<int>, i: nat)
    requires inp.Valid() && i <= |m|
    ensures (exists a :: a in NackAttempts(inp, m, i) && a.msg == []) <==> Client.Beyond(inp.cfg, m, i)
    decreases |m| - i
  {
    if i < |m| && m[i] >= 0 {
      EmptyAnswerIff(inp, m, i + 1);
      var first, rest := EntryAttempt(inp, m[i]), NackAttempts(inp, m, i + 1);
      assert NackAttempts(inp, m, i) == [first] + rest;
      assert forall a :: a in [first] + rest <==> a == first || a in rest;
      assert first.msg == [] <==> m[i] >= inp.cfg.Total();
    }
  }

  /** An array that starts with k requests is answered with exactly one frame per request, in order, and nothing else,
      if and only if a negative entry or the end of the array follows them. */
  lemma NackAnswersAreExact(inp: Input, m: seq<int>, k: nat)
    requires inp.Valid() && k <= |m|
    requires forall x :: 0 <= x < k ==> 0 <= m[x] < inp.cfg.Total()
    ensures NackAttempts(inp, m, 0) == AnswersTo(inp, m[..k]) <==> k == |m| || m[k] < 0
  {
    AnswersComeFirst(inp, m, 0, k);
    assert m[0..k] == m[..k];
  }

  /** The server answers the array of a timeout with the first missing blocks and nothing else. */
  ghost predicate AnsweredExactly(inp: Input, rcvd: seq<bool>, leftover: seq<int>)
    requires inp.Valid() && |rcvd| == MAX_PACKETS && |leftover| == inp.cfg.bs
  {
    MissingIsExact(inp.cfg, rcvd);
    var missing := Missing(inp.cfg, rcvd);
    assert forall i :: 0 <= i < |missing| ==> missing[i] in missing;
    NackAttempts(inp, Client.Nack(inp.cfg, rcvd, leftover), 0) == AnswersTo(inp, missing[..Client.Asked(inp.cfg, rcvd)])
  }

  /** Whatever the unused slots hold, that is so exactly when the array is full or its first unused slot is negative. */
  lemma AnsweredExactlyIff(inp: Input, rcvd: seq<bool>, leftover: seq<int>)
    requires inp.Valid() && |rcvd| == MAX_PACKETS && |leftover| == inp.cfg.bs
    ensures var k := Client.Asked(inp.cfg, rcvd);
            AnsweredExactly(inp, rcvd, leftover) <==> k == inp.cfg.bs || leftover[k] < 0
  {
    MissingIsExact(inp.cfg, rcvd);
    var missing := Missing(inp.cfg, rcvd);
    var k := Client.Asked(inp.cfg, rcvd);
    var m := Client.Nack(inp.cfg, rcvd, leftover);
    assert forall i :: 0 <= i < |missing| ==> missing[i] in missing;
    assert m[..k] == missing[..k];
    NackAnswersAreExact(inp, m, k);
  }

  /** What memset leaves: it counts bytes, so a quarter of the slots is negative and the rest is as it was. */
  ghost predicate QuarterNegative(leftover: seq<int>) {
    forall i :: 0 <= i < |leftover| / 4 ==> leftover[i] < 0
  }

  /** With a quarter of the slots negative the server answers exactly, whatever the others hold, if and only if
      fewer blocks are missing than a quarter of the slots, or at least as many as there are slots. */
  lemma QuarterSufficesIff(inp: Input, rcvd: seq<bool>)
    requires inp.Valid() && |rcvd| == MAX_PACKETS
    ensures (forall leftover :: |leftover| == inp.cfg.bs && QuarterNegative(leftover) ==> AnsweredExactly(inp, rcvd, leftover))
       <==> |Missing(inp.cfg, rcvd)| < inp.cfg.bs / 4 || |Missing(inp.cfg, rcvd)| >= inp.cfg.bs
  {
    var bs := inp.cfg.bs;
    var k := Client.Asked(inp.cfg, rcvd);
    if k < bs / 4 || k == bs {
      forall leftover | |leftover| == bs && QuarterNegative(leftover)
        ensures AnsweredExactly(inp, rcvd, leftover)
      {
        AnsweredExactlyIff(inp, rcvd, leftover);
      }
    } else {
      var leftover := seq(bs, i => if i < bs / 4 then -2 else 0);
      assert QuarterNegative(leftover);
      AnsweredExactlyIff(inp, rcvd, leftover);
    }
  }
}
