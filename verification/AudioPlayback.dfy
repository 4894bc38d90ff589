/** The audio client's playback buffer: packets are appended by one handler, payloads are written to
    the device by another, and a counting semaphore says how many payloads may be taken. */
module AudioPlayback {
  import opened Arithmetic
  import opened Frame

  // ---- specification on values

  /** The buffered bytes, the semaphore, whether the stream is still running, and what the device has been given. */
  datatype Player = Player(buffer: seq<Byte>, full: nat, transmitting: bool, played: seq<Byte>)

  datatype Event = Packet(data: seq<Byte>) | Tick

  /** The packet that ends the stream. */
  const GOD: seq<Byte> := [71, 79, 68]

  function Start(): Player {
    Player([], 0, true, [])
  }

  function OnPacket(pl: Player, data: seq<Byte>): Player {
    if !pl.transmitting then pl
    else if data == GOD then pl.(transmitting := false)
    else pl.(buffer := pl.buffer + data, full := pl.full + 1)
  }

  /** One payload, or what is there if less, goes to the device. */
  function PlayOut(pl: Player, pyld: nat): Player {
    var n := if |pl.buffer| < pyld then |pl.buffer| else pyld;
    pl.(buffer := pl.buffer[n..], played := pl.played + pl.buffer[..n])
  }

  function OnTick(pl: Player, pyld: nat): Player {
    if pl.transmitting then
      if pl.full == 0 then pl else PlayOut(pl.(full := pl.full - 1), pyld)
    else if |pl.buffer| > 0 then PlayOut(pl, pyld)
    else pl
  }

  function OnEvent(pl: Player, e: Event, pyld: nat): Player {
    match e
    case Packet(data) => OnPacket(pl, data)
    case Tick => OnTick(pl, pyld)
  }

  /** The player after a sequence of events in the order the handlers run. */
  function Run(pl: Player, events: seq<Event>, pyld: nat): Player
    decreases |events|
  {
    if events == [] then pl else Run(OnEvent(pl, events[0], pyld), events[1..], pyld)
  }

  /** The stream: all packets before the closing one, put together. */
  function Stream(events: seq<Event>): seq<Byte> {
    if events == [] then []
    else match events[0]
         case Tick => Stream(events[1..])
         case Packet(data) => if data == GOD then [] else data + Stream(events[1..])
  }

  predicate Closed(events: seq<Event>) {
    Packet(['G' as int, 'O' as int, 'D' as int]) in events
  }

  /** recvfrom never returns more than a payload. */
  predicate Sized(e: Event, pyld: nat) {
    e.Packet? ==> |e.data| <= pyld
  }

  predicate AllSized(events: seq<Event>, pyld: nat) {
    forall i :: 0 <= i < |events| ==> Sized(events[i], pyld)
  }

  /** The buffer is large enough for every packet of the run. */
  predicate Fits(pl: Player, events: seq<Event>, pyld: nat, capacity: nat)
    decreases |events|
  {
    events == [] ||
    (&& (events[0].Packet? && pl.transmitting && events[0].data != GOD ==> |pl.buffer| + |events[0].data| <= capacity)
     && Fits(OnEvent(pl, events[0], pyld), events[1..], pyld, capacity))
  }

  /** Calls that empty a buffer of n bytes. */
  function DrainCalls(n: nat, pyld: nat): nat
    requires pyld >= 1
  {
    (n + pyld - 1) / pyld
  }

  // ---- the program

  class AudioListener {
    const pyldSz: nat
    const sharedBuffer: array<Byte>
    var level: nat
    var full: nat
    var transmitting: bool
    /** Bytes written to the audio device, oldest first. */
    var device: seq<Byte>

    ghost predicate Valid()
      reads this
    {
      pyldSz >= 1 && level <= sharedBuffer.Length
    }

    ghost function Abs(): Player
      requires Valid()
      reads this, sharedBuffer
    {
      Player(sharedBuffer[..level], full, transmitting, device)
    }

    constructor (pyldSz: nat, maxBufSz: nat)
      requires pyldSz >= 1
      ensures Valid() && Abs() == Start() && fresh(sharedBuffer)
      ensures this.pyldSz == pyldSz && sharedBuffer.Length == maxBufSz + 1
    {
      this.pyldSz := pyldSz;
      sharedBuffer := new Byte[maxBufSz + 1](_ => 0);
      level := 0;
      full := 0;
      transmitting := true;
      device := [];
    }

    method PacketHandler(data: seq<Byte>)
      requires Valid()
      requires transmitting && data != GOD ==> level + |data| <= sharedBuffer.Length
      modifies this`level, this`full, this`transmitting, sharedBuffer
      ensures Valid() && Abs() == OnPacket(old(Abs()), data)
    {
      if transmitting {
        var n := |data|;
        if n == 3 {
          if data[0] == GOD[0] && data[1] == GOD[1] && data[2] == GOD[2] {
            assert data == GOD;
            transmitting := false;
            return;
          }
        }
        forall i | 0 <= i < n {
          sharedBuffer[level + i] := data[i];
        }
        level := level + n;
        full := full + 1;
        assert sharedBuffer[..level] == old(sharedBuffer[..level]) + data;
      }
    }

    method PlayItBack()
      requires Valid()
      modifies this`level, this`device, sharedBuffer
      ensures Valid() && Abs() == PlayOut(old(Abs()), pyldSz)
    {
      if level < pyldSz {
        device := device + sharedBuffer[..level];
        level := 0;
      } else {
        device := device + sharedBuffer[..pyldSz];
        // memmove
        forall i | 0 <= i < level - pyldSz {
          sharedBuffer[i] := sharedBuffer[pyldSz + i];
        }
        level := level - pyldSz;
        assert sharedBuffer[..level] == old(sharedBuffer[..level])[pyldSz..];
      }
    }

    method PlaybackHandler()
      requires Valid()
      modifies this`level, this`full, this`device, sharedBuffer
      ensures Valid() && Abs() == OnTick(old(Abs()), pyldSz)
      ensures var n := old(if transmitting && full == 0 then 0 else if level < pyldSz then level else pyldSz);
              && device == old(device + sharedBuffer[..n])
              && sharedBuffer[..level] == old(sharedBuffer[n..level])
              && full == old(if transmitting && full > 0 then full - 1 else full)
    {
      if transmitting {
        if full == 0 {
          return;
        }
        full := full - 1;
        PlayItBack();
      } else if level > 0 {
        PlayItBack();
      }
    }

    /** The loop that finishes up after the end of the stream. */
    method Drain() returns (calls: nat)
      requires Valid() && !transmitting
      modifies this`level, this`full, this`device, sharedBuffer
      ensures Valid() && level == 0 && !transmitting
      ensures device == old(device + sharedBuffer[..level])
      ensures calls == DrainCalls(old(level), pyldSz)
    {
      calls := 0;
      while level > 0
        invariant Valid() && !transmitting
        invariant device + sharedBuffer[..level] == old(device + sharedBuffer[..level])
        invariant calls + DrainCalls(level, pyldSz) == DrainCalls(old(level), pyldSz)
      {
        DrainOneCall(level, pyldSz);
        PlayOutKeepsBytes(Abs(), pyldSz);
        PlaybackHandler();
        calls := calls + 1;
      }
      NothingToDrain(pyldSz);
    }

    /** A whole stream: the handlers run in the order of the events, then the rest is played. */
    method Listen(events: seq<Event>)
      requires Valid() && Abs() == Start()
      requires Fits(Start(), events, pyldSz, sharedBuffer.Length) && Closed(events)
      modifies this, sharedBuffer
      ensures device == Stream(events) && level == 0
    {
      var k := 0;
      while k < |events|
        invariant 0 <= k <= |events| && Valid()
        invariant Run(Abs(), events[k..], pyldSz) == Run(Start(), events, pyldSz)
        invariant Fits(Abs(), events[k..], pyldSz, sharedBuffer.Length)
        decreases |events| - k
      {
        assert events[k..][0] == events[k] && events[k..][1..] == events[k + 1..];
        match events[k] {
          case Packet(data) => PacketHandler(data);
          case Tick => PlaybackHandler();
        }
        k := k + 1;
      }
      Fifo(events, pyldSz);
      EndsWhenClosed(Start(), events, pyldSz);
      var calls := Drain();
    }
  }

  // ---- proofs

  lemma NothingToDrain(pyld: nat)
    requires pyld >= 1
    ensures DrainCalls(0, pyld) == 0
  {
    DivModUnique(pyld - 1, 0, pyld - 1, pyld);
  }

  /** One call takes one off the number of calls still needed. */
  lemma DrainOneCall(n: nat, pyld: nat)
    requires n >= 1 && pyld >= 1
    ensures DrainCalls(n, pyld) == 1 + DrainCalls(if n < pyld then 0 else n - pyld, pyld)
  {
    if n < pyld {
      DivModUnique(n + pyld - 1, 1, n - 1, pyld);
      NothingToDrain(pyld);
    } else {
      DivModPlus(n - 1, pyld);
    }
  }

  lemma PlayOutKeepsBytes(pl: Player, pyld: nat)
    ensures PlayOut(pl, pyld).played + PlayOut(pl, pyld).buffer == pl.played + pl.buffer
  {
    var n := if |pl.buffer| < pyld then |pl.buffer| else pyld;
    assert pl.buffer[..n] + pl.buffer[n..] == pl.buffer;
    assert (pl.played + pl.buffer[..n]) + pl.buffer[n..] == pl.played + (pl.buffer[..n] + pl.buffer[n..]);
  }

  lemma {:induction false} RunAppendsStream(pl: Player, events: seq<Event>, pyld: nat)
    ensures var pl' := Run(pl, events, pyld);
            pl'.played + pl'.buffer == pl.played + pl.buffer + if pl.transmitting then Stream(events) else []
    decreases |events|
  {
    if events != [] {
      var pl1 := OnEvent(pl, events[0], pyld);
      RunAppendsStream(pl1, events[1..], pyld);
      match events[0]
      case Tick =>
        PlayOutKeepsBytes(pl, pyld);
        PlayOutKeepsBytes(pl.(full := if pl.full == 0 then 0 else pl.full - 1), pyld);
      case Packet(data) =>
        assert (pl.played + (pl.buffer + data)) + Stream(events[1..]) == pl.played + pl.buffer + (data + Stream(events[1..]));
    }
  }

  /** The buffer is a first-in first-out queue: in every interleaving of packets and playback calls the bytes played
      so far followed by the bytes still buffered are exactly the bytes received, in order. */
  lemma Fifo(events: seq<Event>, pyld: nat)
    ensures var pl := Run(Start(), events, pyld);
            pl.played + pl.buffer == Stream(events)
  {
    RunAppendsStream(Start(), events, pyld);
    assert [] + [] + Stream(events) == Stream(events);
  }

  lemma {:induction false} EndsWhenClosed(pl: Player, events: seq<Event>, pyld: nat)
    ensures Run(pl, events, pyld).transmitting <==> pl.transmitting && !Closed(events)
    decreases |events|
  {
    if events != [] {
      EndsWhenClosed(OnEvent(pl, events[0], pyld), events[1..], pyld);
      assert Closed(events) <==> events[0] == Packet(GOD) || Closed(events[1..]);
    }
  }

  /** While the stream runs the buffer holds at most one payload per unit of the semaphore. */
  ghost predicate Covered(pl: Player, pyld: nat) {
    pl.transmitting ==> |pl.buffer| <= pl.full * pyld
  }

  lemma EventKeepsCovered(pl: Player, e: Event, pyld: nat)
    requires Covered(pl, pyld) && Sized(e, pyld)
    ensures Covered(OnEvent(pl, e, pyld), pyld)
  {
    assert (pl.full + 1) * pyld == pl.full * pyld + pyld;
    assert (pl.full - 1) * pyld == pl.full * pyld - pyld;
    if e.Tick? && pl.full > 0 {
      assert (pl.full - 1) * pyld >= 0;
    }
  }

  lemma {:induction false} RunKeepsCovered(pl: Player, events: seq<Event>, pyld: nat)
    requires Covered(pl, pyld) && AllSized(events, pyld)
    ensures Covered(Run(pl, events, pyld), pyld)
    decreases |events|
  {
    if events != [] {
      EventKeepsCovered(pl, events[0], pyld);
      RunKeepsCovered(OnEvent(pl, events[0], pyld), events[1..], pyld);
    }
  }

  /** A playback call is turned away only when there is nothing to play, in every run. */
  lemma TurnedAwayOnlyWhenEmpty(events: seq<Event>, pyld: nat)
    requires AllSized(events, pyld)
    ensures var pl := Run(Start(), events, pyld);
            && (pl.transmitting ==> |pl.buffer| <= pl.full * pyld)
            && (OnTick(pl, pyld) == pl && pyld >= 1 ==> pl.buffer == [])
  {
    RunKeepsCovered(Start(), events, pyld);
    var pl := Run(Start(), events, pyld);
    if pl.transmitting && pl.full == 0 {
      assert pl.full * pyld == 0;
    }
  }

  lemma {:induction false} RunSnoc(pl: Player, events: seq<Event>, e: Event, pyld: nat)
    ensures Run(pl, events + [e], pyld) == OnEvent(Run(pl, events, pyld), e, pyld)
    decreases |events|
  {
    if events == [] {
      assert [] + [e] == [e] && [e][1..] == [];
    } else {
      assert (events + [e])[1..] == events[1..] + [e];
      RunSnoc(OnEvent(pl, events[0], pyld), events[1..], e, pyld);
    }
  }

  /** After any run a playback call gives the device exactly the first payload of the buffer, or all of it if that is less,
      and nothing else; while the stream runs it takes one off the semaphore, if that is not zero. */
  lemma TickPlays(events: seq<Event>, pyld: nat)
    requires AllSized(events, pyld)
    ensures var pl, pl' := Run(Start(), events, pyld), Run(Start(), events + [Tick], pyld);
            var n := if pyld < |pl.buffer| then pyld else |pl.buffer|;
            && pl'.played == pl.played + pl.buffer[..n] && pl'.buffer == pl.buffer[n..]
            && (pl.buffer != [] && pyld >= 1 ==> |pl'.played| > |pl.played|)
            && pl'.transmitting == pl.transmitting
            && (pl.transmitting && pl.buffer != [] ==> pl'.full == pl.full - 1)
            && pl'.full == if pl.transmitting && pl.full > 0 then pl.full - 1 else pl.full
  {
    RunSnoc(Start(), events, Tick, pyld);
    RunKeepsCovered(Start(), events, pyld);
    var pl := Run(Start(), events, pyld);
    if pl.transmitting && pl.full == 0 {
      assert pl.full * pyld == 0;
    }
    assert pl.buffer == [] ==> pl.played + pl.buffer[..0] == pl.played;
  }

  /** After any run a packet goes behind what is buffered and is counted once, unless it is the closing one, which only ends
      the stream; after the end nothing happens. */
  lemma PacketWaits(events: seq<Event>, data: seq<Byte>, pyld: nat)
    ensures var pl, pl' := Run(Start(), events, pyld), Run(Start(), events + [Packet(data)], pyld);
            && pl'.played == pl.played
            && pl'.buffer == pl.buffer + (if Closed(events + [Packet(data)]) then [] else data)
            && pl'.full == pl.full + (if Closed(events + [Packet(data)]) then 0 else 1)
            && (pl'.transmitting <==> !Closed(events + [Packet(data)]))
  {
    RunSnoc(Start(), events, Packet(data), pyld);
    EndsWhenClosed(Start(), events, pyld);
    EndsWhenClosed(Start(), events + [Packet(data)], pyld);
  }

  /** Every packet before the closing one is exactly one payload. */
  predicate AllFull(events: seq<Event>, pyld: nat) {
    forall i :: 0 <= i < |events| && events[i].Packet? && events[i].data != GOD ==> |events[i].data| == pyld
  }

  /** The semaphore counts the buffered payloads. */
  ghost predicate Exact(pl: Player, pyld: nat) {
    pl.transmitting ==> |pl.buffer| == pl.full * pyld
  }

  lemma {:induction false} RunKeepsExact(pl: Player, events: seq<Event>, pyld: nat)
    requires Exact(pl, pyld) && AllFull(events, pyld)
    ensures Exact(Run(pl, events, pyld), pyld)
    decreases |events|
  {
    if events != [] {
      assert (pl.full + 1) * pyld == pl.full * pyld + pyld;
      assert (pl.full - 1) * pyld == pl.full * pyld - pyld;
      if pl.full > 0 {
        MulAtLeast(pl.full, pyld);
      }
      RunKeepsExact(OnEvent(pl, events[0], pyld), events[1..], pyld);
    }
  }

  /** When all packets are full payloads, the semaphore is exactly the number of payloads in the buffer. */
  lemma SemaphoreCountsPayloads(events: seq<Event>, pyld: nat)
    requires AllFull(events, pyld)
    ensures var pl := Run(Start(), events, pyld);
            pl.transmitting ==> |pl.buffer| == pl.full * pyld
  {
    RunKeepsExact(Start(), events, pyld);
  }

  /** Ticks alone. */
  function Ticks(n: nat): (es: seq<Event>)
    ensures |es| == n
  {
    if n == 0 then [] else [Tick] + Ticks(n - 1)
  }

  /** After the end of the stream exactly ceil(level / payload) calls play the rest: one less leaves some bytes. */
  lemma {:induction false} DrainTakesExactly(pl: Player, n: nat, pyld: nat)
    requires !pl.transmitting && pyld >= 1
    ensures Run(pl, Ticks(n), pyld).buffer == [] <==> n >= DrainCalls(|pl.buffer|, pyld)
    decreases n
  {
    if n == 0 {
      if pl.buffer == [] {
        NothingToDrain(pyld);
      } else {
        DrainOneCall(|pl.buffer|, pyld);
      }
    } else {
      assert Ticks(n)[1..] == Ticks(n - 1);
      DrainTakesExactly(OnTick(pl, pyld), n - 1, pyld);
      if pl.buffer == [] {
        NothingToDrain(pyld);
      } else {
        DrainOneCall(|pl.buffer|, pyld);
      }
    }
  }

  /** End to end: once the stream is closed and the rest has been drained, the device has been given the whole stream. */
  lemma WholeStreamIsPlayed(events: seq<Event>, pyld: nat)
    requires pyld >= 1 && Closed(events)
    ensures var pl := Run(Start(), events, pyld);
            Run(pl, Ticks(DrainCalls(|pl.buffer|, pyld)), pyld).played == Stream(events)
  {
    var pl := Run(Start(), events, pyld);
    var n := DrainCalls(|pl.buffer|, pyld);
    Fifo(events, pyld);
    EndsWhenClosed(Start(), events, pyld);
    DrainTakesExactly(pl, n, pyld);
    RunAppendsStream(pl, Ticks(n), pyld);
    var end := Run(pl, Ticks(n), pyld);
    assert end.played + [] == end.played;
    assert pl.played + pl.buffer + [] == pl.played + pl.buffer;
  }
}
