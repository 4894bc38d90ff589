/** The receiving side of the turbo transfer: a bitmap of received blocks, a byte count,
    and the mapped output file, all updated in place. */
module TurboClient {
  import opened Frame
  import opened Blocks

  /** The first integer of the message that tells the server the file is complete. */
  const DONE: int := -1

  // ---- specification on values

  datatype Client = Client(image: seq<Byte>, rcvd: seq<bool>, recvSize: int, finished: bool, outbox: seq<seq<int>>)

  ghost predicate Shaped(cfg: Config, c: Client) {
    cfg.Valid() && |c.image| == cfg.size && |c.rcvd| == MAX_PACKETS
  }

  /** The state before the first frame: the mapped file is all zero, no bit is set. */
  function Initial(cfg: Config): Client {
    Client(seq(cfg.size, _ => 0), seq(MAX_PACKETS, _ => false), 0, false, [])
  }

  /** Memory from the start of the receive buffer on, in which the client finds a sequence number of this file, a bar,
      and a block's worth of bytes after the bar. */
  ghost predicate Placeable(cfg: Config, memory: seq<Byte>) {
    && cfg.Valid()
    && |memory| >= cfg.bs + HEADER_SIZE
    && Readable(memory, cfg.bs)
    && 0 <= DecodedSeq(memory) < cfg.Total()
  }

  /** A datagram that the client can place without reading past its receive buffer. */
  ghost predicate Acceptable(cfg: Config, frame: seq<Byte>) {
    Placeable(cfg, frame) && |frame| == cfg.bs + HEADER_SIZE
  }

  /** What the client looks at after an empty datagram: the zeroed receive buffer, then the bytes that lie beyond it. */
  function Untouched(cfg: Config, beyond: seq<Byte>): seq<Byte> {
    Zeros(cfg.bs + HEADER_SIZE) + beyond
  }

  /** It takes the zeros for the number of the first block. */
  lemma EmptyReadsAsBlockZero(cfg: Config, beyond: seq<Byte>)
    ensures |Untouched(cfg, beyond)| >= HEADER_SIZE && DecodedSeq(Untouched(cfg, beyond)) == 0
  {
    assert Untouched(cfg, beyond)[..HEADER_SIZE] == Zeros(HEADER_SIZE);
    assert SkipSpaces(Zeros(HEADER_SIZE)) == Zeros(HEADER_SIZE);
  }

  /** What one frame does to a client that is still in its loop. */
  ghost function AfterFrame(cfg: Config, c: Client, frame: seq<Byte>): (c': Client)
    requires Shaped(cfg, c) && Placeable(cfg, frame)
    ensures Shaped(cfg, c')
  {
    var s := DecodedSeq(frame);
    if c.rcvd[s] then c
    else
      BlockFits(cfg, s);
      var n := cfg.BlockLen(s);
      Client(Splice(c.image, s * cfg.bs, DecodedData(frame, cfg.bs)[..n]),
             c.rcvd[s := true],
             c.recvSize + n,
             c.recvSize + n >= cfg.size,
             c.outbox + if c.recvSize + n >= cfg.size then [[DONE], [DONE], [DONE]] else [])
  }

  /** The array sent on a timeout: the first missing numbers, then whatever the unused slots hold. */
  ghost function Nack(cfg: Config, rcvd: seq<bool>, leftover: seq<int>): (m: seq<int>)
    requires cfg.Valid() && |rcvd| == MAX_PACKETS && |leftover| == cfg.bs
    ensures |m| == cfg.bs
  {
    var k := Asked(cfg, rcvd);
    Missing(cfg, rcvd)[..k] + leftover[k..]
  }

  /** What a timeout does: the array goes out twice, unless nothing is missing. */
  ghost function AfterTimeout(cfg: Config, c: Client, leftover: seq<int>): (c': Client)
    requires Shaped(cfg, c) && |leftover| == cfg.bs
    ensures Shaped(cfg, c')
  {
    if Missing(cfg, c.rcvd) == [] then c
    else
      var nack := Nack(cfg, c.rcvd, leftover);
      c.(outbox := c.outbox + [nack, nack])
  }

  /** What the loop waits for: a datagram, which leaves something to read from the start of the buffer on, or nothing
      for the length of the timeout. */
  datatype Event = Arrival(frame: seq<Byte>) | Silence(leftover: seq<int>)

  ghost predicate EventOk(cfg: Config, e: Event) {
    match e
    case Arrival(frame) => Placeable(cfg, frame)
    case Silence(leftover) => |leftover| == cfg.bs
  }

  ghost function AfterEvent(cfg: Config, c: Client, e: Event): (c': Client)
    requires Shaped(cfg, c) && EventOk(cfg, e)
    ensures Shaped(cfg, c')
  {
    match e
    case Arrival(frame) => AfterFrame(cfg, c, frame)
    case Silence(leftover) => AfterTimeout(cfg, c, leftover)
  }

  /** The loop on a sequence of events: it is left as soon as the file is complete. */
  ghost function AfterEvents(cfg: Config, c: Client, events: seq<Event>): (c': Client)
    requires Shaped(cfg, c) && forall i :: 0 <= i < |events| ==> EventOk(cfg, events[i])
    ensures Shaped(cfg, c')
    decreases |events|
  {
    if events == [] || c.finished then c
    else AfterEvents(cfg, AfterEvent(cfg, c, events[0]), events[1..])
  }

  // ---- the program

  class TurboClient {
    const cfg: Config
    const fileMap: array<Byte>
    const pktsRcvd: array<bool>
    var recvSize: int
    var finished: bool
    /** Control arrays handed to sendto, oldest first. */
    var outbox: seq<seq<int>>

    ghost predicate Valid()
      reads this
    {
      cfg.Valid() && fileMap.Length == cfg.size && pktsRcvd.Length == MAX_PACKETS
    }

    ghost function Abs(): Client
      reads this, fileMap, pktsRcvd
    {
      Client(fileMap[..], pktsRcvd[..], recvSize, finished, outbox)
    }

    constructor (cfg: Config)
      requires cfg.Valid()
      ensures Valid() && this.cfg == cfg
      ensures Abs() == Initial(cfg)
      ensures fresh(fileMap) && fresh(pktsRcvd)
    {
      this.cfg := cfg;
      fileMap := new Byte[cfg.size](_ => 0);
      pktsRcvd := new bool[MAX_PACKETS](_ => false);
      recvSize := 0;
      finished := false;
      outbox := [];
    }

    /** The scan for the end of the header. */
    method FindBar(recvData: seq<Byte>) returns (pch: nat)
      requires BAR in recvData
      ensures pch == FirstBar(recvData) < |recvData|
    {
      pch := 0;
      while recvData[pch] != BAR
        invariant pch <= |recvData| && BAR !in recvData[..pch]
        invariant BAR in recvData[pch..]
        decreases |recvData| - pch
      {
        assert recvData[..pch + 1] == recvData[..pch] + [recvData[pch]];
        assert recvData[pch..] == [recvData[pch]] + recvData[pch + 1..];
        pch := pch + 1;
      }
      FirstBarIs(recvData, pch);
    }

    /** The memcpy into the mapped file. */
    method CopyIn(off: nat, data: seq<Byte>)
      requires off + |data| <= fileMap.Length
      modifies fileMap
      ensures fileMap[..] == Splice(old(fileMap[..]), off, data)
    {
      forall i | 0 <= i < |data| {
        fileMap[off + i] := data[i];
      }
    }

    /** A full block, or what is left of the file, goes to its place and is counted. */
    method StoreBlock(seqno: nat, data: seq<Byte>)
      requires Valid() && seqno < cfg.Total() && |data| == cfg.bs
      modifies this`recvSize, fileMap
      ensures 1 <= cfg.BlockLen(seqno) <= cfg.bs && seqno * cfg.bs + cfg.BlockLen(seqno) <= cfg.size
      ensures fileMap[..] == Splice(old(fileMap[..]), seqno * cfg.bs, data[..cfg.BlockLen(seqno)])
      ensures recvSize == old(recvSize) + cfg.BlockLen(seqno)
    {
      BlockFits(cfg, seqno);
      var off := seqno * cfg.bs;
      if seqno < cfg.Total() - 1 {
        CopyIn(off, data);
        recvSize := recvSize + cfg.bs;
      } else {
        CopyIn(off, data[..cfg.size - off]);
        recvSize := recvSize + (cfg.size - off);
      }
    }

    /** The closing mark goes out three times. */
    method SendDone()
      modifies this`outbox
      ensures outbox == old(outbox) + [[DONE], [DONE], [DONE]]
    {
      outbox := outbox + [[DONE]];
      outbox := outbox + [[DONE]];
      outbox := outbox + [[DONE]];
    }

    /** The same control array goes out twice. */
    method SendTwice(control: array<int>)
      modifies this`outbox
      ensures outbox == old(outbox) + [control[..], control[..]]
    {
      outbox := outbox + [control[..]];
      outbox := outbox + [control[..]];
    }

    /** The branch taken when a datagram is waiting. */
    method OnFrame(recvData: seq<Byte>)
      requires Valid() && !finished && Placeable(cfg, recvData)
      modifies this, fileMap, pktsRcvd
      ensures Valid()
      ensures Abs() == AfterFrame(cfg, old(Abs()), recvData)
    {
      var seqno := Atoi(recvData[..8]);
      if !pktsRcvd[seqno] {
        pktsRcvd[seqno] := true;
        var pch := FindBar(recvData);
        var data := recvData[pch + 1..pch + 1 + cfg.bs];
        assert data == DecodedData(recvData, cfg.bs);
        StoreBlock(seqno, data);
        if recvSize >= cfg.size {
          SendDone();
          finished := true;
        }
      }
    }

    /** The loop over the bitmap: writes the missing numbers to the front of the array until it is full. */
    method CollectMissing(control: array<int>) returns (num: nat)
      requires Valid() && control.Length == cfg.bs
      modifies control
      ensures control[..] == Nack(cfg, pktsRcvd[..], old(control[..]))
      ensures num == 0 <==> Missing(cfg, pktsRcvd[..]) == []
    {
      ghost var leftover := control[..];
      ghost var rcvd := pktsRcvd[..];
      ghost var missing := Missing(cfg, rcvd);
      num := 0;
      var j := 0;
      while j < cfg.Total()
        invariant j <= cfg.Total() && num < cfg.bs
        invariant Collected(missing, rcvd, leftover, j, cfg.Total(), num, control[..])
      {
        if !pktsRcvd[j] {
          CollectedClear(missing, rcvd, leftover, j, cfg.Total(), num, control[..]);
          control[num] := j;
          num := num + 1;
          if num == cfg.bs {
            return;
          }
        }
        j := j + 1;
      }
    }

    /** The branch taken when nothing arrives in time; `leftover` is what the unused slots of the array hold. */
    method OnTimeout(leftover: seq<int>)
      requires Valid() && !finished && |leftover| == cfg.bs
      modifies this`outbox
      ensures Valid()
      ensures Abs() == AfterTimeout(cfg, old(Abs()), leftover)
    {
      var control := new int[cfg.bs](i requires 0 <= i < cfg.bs => leftover[i]);
      assert control[..] == leftover;
      var num := CollectMissing(control);
      if num > 0 {
        SendTwice(control);
      }
    }

    /** The main loop. */
    method Receive(events: seq<Event>)
      requires Valid() && forall i :: 0 <= i < |events| ==> EventOk(cfg, events[i])
      modifies this, fileMap, pktsRcvd
      ensures Valid() && Abs() == AfterEvents(cfg, old(Abs()), events)
      ensures old(Abs()) == Initial(cfg) ==> SessionEnds(cfg, events, Abs())
    {
      var k := 0;
      while k < |events| && !finished
        invariant 0 <= k <= |events| && Valid()
        invariant AfterEvents(cfg, Abs(), events[k..]) == AfterEvents(cfg, old(Abs()), events)
        decreases |events| - k
      {
        assert events[k..][0] == events[k] && events[k..][1..] == events[k + 1..];
        match events[k] {
          case Arrival(frame) => OnFrame(frame);
          case Silence(leftover) => OnTimeout(leftover);
        }
        k := k + 1;
      }
      if old(Abs()) == Initial(cfg) {
        SessionIs(cfg, events);
      }
    }
  }

  /** Of the missing numbers the first num are in the array, and the rest are those from j up to n. */
  ghost predicate Collected(missing: seq<nat>, rcvd: seq<bool>, leftover: seq<int>, j: nat, n: nat, num: nat, control: seq<int>) {
    && j <= n <= |rcvd| && num <= |missing| && num <= |leftover|
    && missing[num..] == ClearFrom(rcvd, j, n)
    && control == missing[..num] + leftover[num..]
  }

  /** One turn of the loop over the bitmap that finds a clear bit. */
  lemma CollectedClear(missing: seq<nat>, rcvd: seq<bool>, leftover: seq<int>, j: nat, n: nat, num: nat, control: seq<int>)
    requires Collected(missing, rcvd, leftover, j, n, num, control) && j < n && !rcvd[j] && num < |leftover|
    ensures num < |control| && Collected(missing, rcvd, leftover, j + 1, n, num + 1, control[num := j])
  {
    assert missing[num..] == [j] + ClearFrom(rcvd, j + 1, n);
    assert missing[num] == missing[num..][0] == j;
    assert missing[num + 1..] == missing[num..][1..];
    SlotFilled(control, missing, leftover, num);
  }

  lemma SlotFilled(control: seq<int>, missing: seq<nat>, leftover: seq<int>, num: nat)
    requires num < |missing| && num < |leftover|
    requires control == missing[..num] + leftover[num..]
    ensures control[num := missing[num]] == missing[..num + 1] + leftover[num + 1..]
  {
  }

  // ---- what the client keeps

  /** A frame that carries the file's bytes for its sequence number; padding after them is free. */
  ghost predicate Faithful(cfg: Config, file: seq<Byte>, frame: seq<Byte>): (yes: bool)
    requires cfg.Valid() && |file| == cfg.size
    ensures yes ==> Acceptable(cfg, frame)
  {
    && Acceptable(cfg, frame)
    && (BlockFits(cfg, DecodedSeq(frame));
        DecodedData(frame, cfg.bs)[..cfg.BlockLen(DecodedSeq(frame))] == Block(cfg, file, DecodedSeq(frame)))
  }

  ghost predicate AllAcceptable(cfg: Config, frames: seq<seq<Byte>>) {
    forall f :: f in frames ==> Acceptable(cfg, f)
  }

  ghost predicate AllFaithful(cfg: Config, file: seq<Byte>, frames: seq<seq<Byte>>): (yes: bool)
    requires cfg.Valid() && |file| == cfg.size
    ensures yes ==> AllAcceptable(cfg, frames)
    ensures yes && frames != [] ==> Faithful(cfg, file, frames[0])
  {
    && (frames != [] ==> frames[0] in frames)
    && forall f :: f in frames ==> Faithful(cfg, file, f)
  }

  /** The byte count is exact. */
  ghost predicate Counted(cfg: Config, c: Client) {
    && Shaped(cfg, c)
    && c.recvSize == SumLen(cfg, c.rcvd, cfg.Total())
    && (c.finished <==> c.recvSize >= cfg.size)
  }

  /** Every block from number `from` on whose bit is set agrees with the file. */
  ghost predicate AgreesFrom(cfg: Config, file: seq<Byte>, c: Client, from: nat)
    requires Shaped(cfg, c) && |file| == cfg.size
  {
    forall j :: from <= j < cfg.Total() && c.rcvd[j] ==> Block(cfg, c.image, j) == Block(cfg, file, j)
  }

  /** The count is exact and every block whose bit is set agrees with the file. */
  ghost predicate Consistent(cfg: Config, file: seq<Byte>, c: Client) {
    Counted(cfg, c) && |file| == cfg.size && AgreesFrom(cfg, file, c, 0)
  }

  lemma InitialConsistent(cfg: Config, file: seq<Byte>)
    requires cfg.Valid() && |file| == cfg.size
    ensures Consistent(cfg, file, Initial(cfg))
    ensures |Missing(cfg, Initial(cfg).rcvd)| <= cfg.Total()
  {
    SumLenClear(cfg, Initial(cfg).rcvd, cfg.Total());
    ClearLength(Initial(cfg).rcvd, 0, cfg.Total());
  }

  /** Whatever the client finds in memory goes to the block it takes the number of, if that had not arrived; no other
      block changes, and the count stays exact. */
  lemma FrameSetsItsBlock(cfg: Config, c: Client, frame: seq<Byte>)
    requires Counted(cfg, c) && !c.finished && Placeable(cfg, frame)
    ensures var (s, c') := (DecodedSeq(frame), AfterFrame(cfg, c, frame));
            && Counted(cfg, c')
            && c'.rcvd == c.rcvd[s := true]
            && (c.rcvd[s] ==> c' == c)
            && 0 <= cfg.BlockLen(s) <= cfg.bs
            && (!c.rcvd[s] ==> Block(cfg, c'.image, s) == DecodedData(frame, cfg.bs)[..cfg.BlockLen(s)])
            && (forall j :: 0 <= j < cfg.Total() && j != s ==> Block(cfg, c'.image, j) == Block(cfg, c.image, j))
  {
    var s := DecodedSeq(frame);
    BlockFits(cfg, s);
    if !c.rcvd[s] {
      SpliceBlock(cfg, c.image, s, DecodedData(frame, cfg.bs)[..cfg.BlockLen(s)]);
      SumLenSetBit(cfg, c.rcvd, s, cfg.Total());
    }
  }

  /** A faithful frame keeps what agrees with the file; it sets its own bit and clears none. */
  lemma FrameKeepsAgreeing(cfg: Config, file: seq<Byte>, c: Client, frame: seq<Byte>, from: nat)
    requires Counted(cfg, c) && !c.finished && |file| == cfg.size && AgreesFrom(cfg, file, c, from)
    requires Faithful(cfg, file, frame)
    ensures var c' := AfterFrame(cfg, c, frame);
            && Counted(cfg, c') && AgreesFrom(cfg, file, c', from)
            && c'.rcvd == c.rcvd[DecodedSeq(frame) := true]
  {
    FrameSetsItsBlock(cfg, c, frame);
  }

  /** In particular it keeps the client consistent. */
  lemma FrameKeepsConsistent(cfg: Config, file: seq<Byte>, c: Client, frame: seq<Byte>)
    requires Consistent(cfg, file, c) && !c.finished && Faithful(cfg, file, frame)
    ensures var c' := AfterFrame(cfg, c, frame);
            && Consistent(cfg, file, c')
            && c'.rcvd == c.rcvd[DecodedSeq(frame) := true]
  {
    FrameKeepsAgreeing(cfg, file, c, frame, 0);
  }

  /** Exact accounting: the count stays within the file size and reaches it only with every bit set. */
  lemma Accounting(cfg: Config, c: Client)
    requires Counted(cfg, c)
    ensures 0 <= c.recvSize <= cfg.size
    ensures c.finished <==> c.recvSize == cfg.size
    ensures c.finished <==> forall j :: 0 <= j < cfg.Total() ==> c.rcvd[j]
    ensures c.finished <==> Missing(cfg, c.rcvd) == []
  {
    SumLenBound(cfg, c.rcvd, cfg.Total());
    MissingIsExact(cfg, c.rcvd);
    var m := Missing(cfg, c.rcvd);
    if m == [] {
      assert forall j :: 0 <= j < cfg.Total() && !c.rcvd[j] ==> j in m;
    } else {
      assert m[0] in m;
    }
  }

  /** A finished client holds the file, byte for byte. */
  lemma FinishedMeansIdentical(cfg: Config, file: seq<Byte>, c: Client)
    requires Consistent(cfg, file, c) && c.finished
    ensures c.image == file
  {
    Accounting(cfg, c);
    BlocksDetermine(cfg, c.image, file);
  }

  /** Read from slot k on, a number past the last block comes before the first negative one. */
  ghost predicate Beyond(cfg: Config, slots: seq<int>, k: nat)
    requires cfg.bs >= 1
    decreases |slots| - k
  {
    k < |slots| && slots[k] >= 0 && (slots[k] >= cfg.Total() || Beyond(cfg, slots, k + 1))
  }

  /** A control array that names only blocks of the file, as far as the server reads it: full length, some number first. */
  ghost predicate WellFormedNack(cfg: Config, m: seq<int>) {
    cfg.Valid() && |m| == cfg.bs && m[0] >= 0 && !Beyond(cfg, m, 0)
  }

  lemma {:induction false} BeyondSkips(cfg: Config, m: seq<int>, i: nat, k: nat)
    requires cfg.bs >= 1 && i <= k <= |m| && forall x :: i <= x < k ==> 0 <= m[x] < cfg.Total()
    ensures Beyond(cfg, m, i) <==> Beyond(cfg, m, k)
    decreases k - i
  {
    if i < k {
      BeyondSkips(cfg, m, i + 1, k);
    }
  }

  lemma {:induction false} BeyondSame(cfg: Config, a: seq<int>, b: seq<int>, k: nat)
    requires cfg.bs >= 1 && |a| == |b| && forall x :: k <= x < |a| ==> a[x] == b[x]
    ensures Beyond(cfg, a, k) <==> Beyond(cfg, b, k)
    decreases |a| - k
  {
    if k < |a| {
      BeyondSame(cfg, a, b, k + 1);
    }
  }

  /** How many numbers a control array asks for. */
  function Asked(cfg: Config, rcvd: seq<bool>): (k: nat)
    requires cfg.bs >= 1 && cfg.Total() <= |rcvd|
    ensures k <= |Missing(cfg, rcvd)| && k <= cfg.bs
  {
    var n := |Missing(cfg, rcvd)|;
    if n < cfg.bs then n else cfg.bs
  }

  /** Whatever the unused slots hold, the array built on a timeout starts with clear bits in ascending order and
      never with the closing mark; it names only blocks of the file exactly when no unused slot before the first
      negative one holds a number past the last block. */
  lemma NackIsExact(cfg: Config, c: Client, leftover: seq<int>)
    requires Counted(cfg, c) && !c.finished && |leftover| == cfg.bs
    ensures var k := Asked(cfg, c.rcvd);
            var m := Nack(cfg, c.rcvd, leftover);
            && k >= 1
            && m[..k] == Missing(cfg, c.rcvd)[..k]
            && (forall i :: k <= i < |m| ==> m[i] == leftover[i])
            && (forall i :: 0 <= i < k ==> 0 <= m[i] < cfg.Total() && !c.rcvd[m[i]])
            && (forall i, j :: 0 <= i < j < k ==> m[i] < m[j])
            && m[0] != DONE
            && (WellFormedNack(cfg, m) <==> !Beyond(cfg, leftover, k))
  {
    Accounting(cfg, c);
    MissingIsExact(cfg, c.rcvd);
    var missing := Missing(cfg, c.rcvd);
    var m := Nack(cfg, c.rcvd, leftover);
    forall i | 0 <= i < Asked(cfg, c.rcvd)
      ensures m[i] == missing[i] && 0 <= m[i] < cfg.Total() && !c.rcvd[m[i]]
    {
      assert missing[i] in missing;
    }
    assert forall i :: Asked(cfg, c.rcvd) <= i < |m| ==> m[i] == leftover[i];
    BeyondSkips(cfg, m, 0, Asked(cfg, c.rcvd));
    BeyondSame(cfg, m, leftover, Asked(cfg, c.rcvd));
  }

  /** It leaves a missing number out only when the array is full, and then only larger ones. */
  lemma NackSkipsNothing(cfg: Config, c: Client, leftover: seq<int>, x: nat)
    requires Shaped(cfg, c) && |leftover| == cfg.bs
    requires x < cfg.Total() && !c.rcvd[x]
    ensures var k := Asked(cfg, c.rcvd);
            var m := Nack(cfg, c.rcvd, leftover);
            x in m[..k] || (k == cfg.bs && m[k - 1] < x)
  {
    MissingIsExact(cfg, c.rcvd);
    var missing := Missing(cfg, c.rcvd);
    var m := Nack(cfg, c.rcvd, leftover);
    var k := Asked(cfg, c.rcvd);
    var i :| 0 <= i < |missing| && missing[i] == x;
    assert m[..k] == missing[..k];
    if i < k {
      assert missing[..k][i] == x;
    } else {
      assert missing[k - 1] < missing[i];
    }
  }

  // ---- whole sessions

  /** The number that the client reads from what arrives. */
  function NumberOf(e: Event): int {
    if e.Arrival? && |e.frame| >= HEADER_SIZE then DecodedSeq(e.frame) else -1
  }

  /** Something with this number is among the events. */
  ghost predicate Arrived(events: seq<Event>, j: nat) {
    exists i :: 0 <= i < |events| && NumberOf(events[i]) == j
  }

  ghost predicate AllArrived(cfg: Config, events: seq<Event>)
    requires cfg.bs >= 1
  {
    forall j :: 0 <= j < cfg.Total() ==> Arrived(events, j)
  }

  /** The bitmap of these numbers. */
  ghost function ArrivedBits(events: seq<Event>): (bits: seq<bool>)
    ensures |bits| == MAX_PACKETS && forall j :: 0 <= j < MAX_PACKETS ==> bits[j] == Arrived(events, j)
  {
    seq(MAX_PACKETS, j requires 0 <= j < MAX_PACKETS => Arrived(events, j))
  }

  /** The first event with this number. */
  ghost function FirstArrival(events: seq<Event>, j: nat): (i: nat)
    requires Arrived(events, j)
    ensures i < |events| && NumberOf(events[i]) == j && forall k :: 0 <= k < i ==> NumberOf(events[k]) != j
  {
    var front := events[..|events| - 1];
    if Arrived(front, j) then FirstArrival(front, j) else |events| - 1
  }

  /** Block j of the image is what came first for it, or zero. */
  ghost predicate FirstCameIn(cfg: Config, events: seq<Event>, image: seq<Byte>, j: nat)
    requires cfg.Valid() && |image| == cfg.size && j < cfg.Total()
  {
    BlockFits(cfg, j);
    Block(cfg, image, j)
    == if Arrived(events, j) && Readable(events[FirstArrival(events, j)].frame, cfg.bs)
       then DecodedData(events[FirstArrival(events, j)].frame, cfg.bs)[..cfg.BlockLen(j)]
       else Zeros(cfg.BlockLen(j))
  }

  /** What the client sends: two arrays for each silence before the file is complete, with the numbers missing then, and three
      closing marks when it is. */
  ghost function SentBy(cfg: Config, events: seq<Event>): seq<seq<int>>
    requires cfg.Valid() && forall i :: 0 <= i < |events| ==> EventOk(cfg, events[i])
  {
    if events == [] then []
    else
      var front, e := events[..|events| - 1], events[|events| - 1];
      assert EventOk(cfg, e);
      SentBy(cfg, front) +
      if AllArrived(cfg, front) then []
      else if e.Silence? then
        [Nack(cfg, ArrivedBits(front), e.leftover), Nack(cfg, ArrivedBits(front), e.leftover)]
      else if AllArrived(cfg, events) then [[-1], [-1], [-1]]
      else []
  }

  /** The state of a client that has started with nothing, after these events. */
  ghost predicate SessionEnds(cfg: Config, events: seq<Event>, c: Client)
    requires cfg.Valid() && forall i :: 0 <= i < |events| ==> EventOk(cfg, events[i])
  {
    && Counted(cfg, c)
    && c.rcvd == ArrivedBits(events)
    && (c.finished <==> AllArrived(cfg, events))
    && (forall j :: 0 <= j < cfg.Total() ==> FirstCameIn(cfg, events, c.image, j))
    && c.outbox == SentBy(cfg, events)
  }

  lemma {:induction false} AfterEventsSnoc(cfg: Config, c: Client, events: seq<Event>, e: Event)
    requires Shaped(cfg, c) && EventOk(cfg, e) && forall i :: 0 <= i < |events| ==> EventOk(cfg, events[i])
    ensures var c1 := AfterEvents(cfg, c, events);
            AfterEvents(cfg, c, events + [e]) == if c1.finished then c1 else AfterEvent(cfg, c1, e)
    decreases |events|
  {
    if events == [] {
      assert [] + [e] == [e] && [e][1..] == [];
    } else if !c.finished {
      assert (events + [e])[1..] == events[1..] + [e];
      AfterEventsSnoc(cfg, AfterEvent(cfg, c, events[0]), events[1..], e);
    }
  }

  lemma ArrivedSnoc(front: seq<Event>, e: Event, j: nat)
    ensures Arrived(front + [e], j) <==> Arrived(front, j) || NumberOf(e) == j
    ensures Arrived(front, j) ==> FirstArrival(front + [e], j) == FirstArrival(front, j)
    ensures !Arrived(front, j) && NumberOf(e) == j ==> FirstArrival(front + [e], j) == |front|
  {
    var events := front + [e];
    assert events[..|events| - 1] == front && events[|front|] == e;
    if i :| 0 <= i < |front| && NumberOf(front[i]) == j {
      assert NumberOf(events[i]) == j;
    }
    if NumberOf(e) == j {
      assert NumberOf(events[|front|]) == j;
    }
  }

  /** The bits after one event more. */
  lemma BitsSnoc(cfg: Config, front: seq<Event>, e: Event)
    requires cfg.Valid() && EventOk(cfg, e)
    ensures e.Silence? ==> ArrivedBits(front + [e]) == ArrivedBits(front)
    ensures e.Arrival? ==> 0 <= NumberOf(e) < cfg.Total() && ArrivedBits(front + [e]) == ArrivedBits(front)[NumberOf(e) := true]
  {
    forall j: nat
      ensures Arrived(front + [e], j) <==> Arrived(front, j) || NumberOf(e) == j
    {
      ArrivedSnoc(front, e, j);
    }
  }

  /** Complete is when all bits are set. */
  lemma AllArrivedIsAllBits(cfg: Config, events: seq<Event>)
    requires cfg.Valid()
    ensures AllArrived(cfg, events) <==> forall j :: 0 <= j < cfg.Total() ==> ArrivedBits(events)[j]
  {
    var bits := ArrivedBits(events);
    assert forall j :: 0 <= j < cfg.Total() ==> bits[j] == Arrived(events, j);
  }

  /** An event that brings block j, if it lacks, keeps what the others are. */
  lemma BlocksSnoc(cfg: Config, front: seq<Event>, e: Event, image: seq<Byte>, image': seq<Byte>, j: nat)
    requires cfg.Valid() && |image| == |image'| == cfg.size && j < cfg.Total() && EventOk(cfg, e)
    requires FirstCameIn(cfg, front, image, j) && 0 <= cfg.BlockLen(j) <= cfg.bs
    requires if NumberOf(e) == j && !Arrived(front, j)
             then e.Arrival? && Block(cfg, image', j) == DecodedData(e.frame, cfg.bs)[..cfg.BlockLen(j)]
             else Block(cfg, image', j) == Block(cfg, image, j)
    ensures FirstCameIn(cfg, front + [e], image', j)
  {
    ArrivedSnoc(front, e, j);
    if Arrived(front, j) {
      assert (front + [e])[FirstArrival(front, j)] == front[FirstArrival(front, j)];
    }
  }

  lemma SessionStarts(cfg: Config)
    requires cfg.Valid()
    ensures SessionEnds(cfg, [], Initial(cfg))
  {
    var c := Initial(cfg);
    InitialConsistent(cfg, c.image);
    TotalBounds(cfg);
    assert !Arrived([], 0);
    forall j | 0 <= j < cfg.Total()
      ensures FirstCameIn(cfg, [], c.image, j)
    {
      BlockFits(cfg, j);
    }
  }

  lemma SessionArrival(cfg: Config, front: seq<Event>, c: Client, frame: seq<Byte>)
    requires cfg.Valid() && forall i :: 0 <= i < |front| ==> EventOk(cfg, front[i])
    requires Placeable(cfg, frame) && SessionEnds(cfg, front, c) && !c.finished
    ensures SessionEnds(cfg, front + [Arrival(frame)], AfterFrame(cfg, c, frame))
  {
    var e := Arrival(frame);
    var events, c' := front + [e], AfterFrame(cfg, c, frame);
    FrameSetsItsBlock(cfg, c, frame);
    BitsSnoc(cfg, front, e);
    AllArrivedIsAllBits(cfg, events);
    Accounting(cfg, c');
    forall j | 0 <= j < cfg.Total()
      ensures FirstCameIn(cfg, events, c'.image, j)
    {
      BlockFits(cfg, j);
      BlocksSnoc(cfg, front, e, c.image, c'.image, j);
    }
    SentSnoc(cfg, front, e);
  }

  lemma SessionSilence(cfg: Config, front: seq<Event>, c: Client, leftover: seq<int>)
    requires cfg.Valid() && forall i :: 0 <= i < |front| ==> EventOk(cfg, front[i])
    requires |leftover| == cfg.bs && SessionEnds(cfg, front, c) && !c.finished
    ensures SessionEnds(cfg, front + [Silence(leftover)], AfterTimeout(cfg, c, leftover))
  {
    var e := Silence(leftover);
    BitsSnoc(cfg, front, e);
    AllArrivedIsAllBits(cfg, front);
    AllArrivedIsAllBits(cfg, front + [e]);
    Accounting(cfg, c);
    SameBlocks(cfg, front, e, c.image);
    SentSnoc(cfg, front, e);
  }

  lemma SameBlocks(cfg: Config, front: seq<Event>, e: Event, image: seq<Byte>)
    requires cfg.Valid() && |image| == cfg.size && EventOk(cfg, e)
    requires forall j :: 0 <= j < cfg.Total() ==> FirstCameIn(cfg, front, image, j)
    requires e.Silence? || Arrived(front, NumberOf(e))
    ensures forall j :: 0 <= j < cfg.Total() ==> FirstCameIn(cfg, front + [e], image, j)
  {
    forall j | 0 <= j < cfg.Total()
      ensures FirstCameIn(cfg, front + [e], image, j)
    {
      BlockFits(cfg, j);
      BlocksSnoc(cfg, front, e, image, image, j);
    }
  }

  lemma SentSnoc(cfg: Config, front: seq<Event>, e: Event)
    requires cfg.Valid() && EventOk(cfg, e) && forall i :: 0 <= i < |front| ==> EventOk(cfg, front[i])
    ensures SentBy(cfg, front + [e])
         == SentBy(cfg, front) +
            if AllArrived(cfg, front) then []
            else if e.Silence? then
              [Nack(cfg, ArrivedBits(front), e.leftover), Nack(cfg, ArrivedBits(front), e.leftover)]
            else if AllArrived(cfg, front + [e]) then [[-1], [-1], [-1]]
            else []
  {
    var events := front + [e];
    assert events[..|events| - 1] == front;
  }

  /** A client that has finished does nothing more, and nothing more is to be done. */
  lemma SessionOver(cfg: Config, front: seq<Event>, c: Client, e: Event)
    requires cfg.Valid() && EventOk(cfg, e) && forall i :: 0 <= i < |front| ==> EventOk(cfg, front[i])
    requires SessionEnds(cfg, front, c) && c.finished
    ensures SessionEnds(cfg, front + [e], c)
  {
    BitsSnoc(cfg, front, e);
    AllArrivedIsAllBits(cfg, front + [e]);
    SameBlocks(cfg, front, e, c.image);
    SentSnoc(cfg, front, e);
    assert SentBy(cfg, front) + [] == SentBy(cfg, front);
  }

  lemma SessionGoesOn(cfg: Config, front: seq<Event>, c: Client, e: Event)
    requires cfg.Valid() && EventOk(cfg, e) && forall i :: 0 <= i < |front| ==> EventOk(cfg, front[i])
    requires SessionEnds(cfg, front, c)
    ensures SessionEnds(cfg, front + [e], if c.finished then c else AfterEvent(cfg, c, e))
  {
    if c.finished {
      SessionOver(cfg, front, c, e);
    } else {
      match e
      case Arrival(frame) => SessionArrival(cfg, front, c, frame);
      case Silence(leftover) => SessionSilence(cfg, front, c, leftover);
    }
  }

  /** For any arrivals and silences in any order: bit j is set exactly if something with number j is among the arrivals, and
      the block is what came first; the client has finished exactly if all numbers are; and what it has sent is SentBy. */
  lemma {:induction false} SessionIs(cfg: Config, events: seq<Event>)
    requires cfg.Valid() && forall i :: 0 <= i < |events| ==> EventOk(cfg, events[i])
    ensures SessionEnds(cfg, events, AfterEvents(cfg, Initial(cfg), events))
    decreases |events|
  {
    if events == [] {
      SessionStarts(cfg);
    } else {
      var front, e := events[..|events| - 1], events[|events| - 1];
      SessionIs(cfg, front);
      assert front + [e] == events;
      AfterEventsSnoc(cfg, Initial(cfg), front, e);
      SessionGoesOn(cfg, front, AfterEvents(cfg, Initial(cfg), front), e);
    }
  }

  /** If every frame that arrives carries the file's bytes, then the client finishes exactly when all numbers have come, and
      holds the file. */
  lemma FaithfulSession(cfg: Config, file: seq<Byte>, events: seq<Event>)
    requires cfg.Valid() && |file| == cfg.size && forall i :: 0 <= i < |events| ==> EventOk(cfg, events[i])
    requires forall i :: 0 <= i < |events| && events[i].Arrival? ==> Faithful(cfg, file, events[i].frame)
    ensures var c := AfterEvents(cfg, Initial(cfg), events);
            (c.finished <==> AllArrived(cfg, events)) && (c.finished ==> c.image == file)
  {
    SessionIs(cfg, events);
    var c := AfterEvents(cfg, Initial(cfg), events);
    if c.finished {
      forall j | 0 <= j < cfg.Total()
        ensures Block(cfg, c.image, j) == Block(cfg, file, j)
      {
        assert FirstCameIn(cfg, events, c.image, j) && Arrived(events, j);
        assert Faithful(cfg, file, events[FirstArrival(events, j)].frame);
      }
      BlocksDetermine(cfg, c.image, file);
    }
  }
}
