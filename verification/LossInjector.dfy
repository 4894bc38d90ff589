/** The server's artificial loss: `dropsendto` counts its calls in two globals and
    swallows a burst of datagrams after every stretch of successful ones. */
module LossInjector {
  import opened Arithmetic

  /** The two globals packet_counter and loss_counter. */
  datatype Counters = Counters(packet: int, loss: int)

  const START := Counters(1, 1)

  /** One call with the arguments totalnum and lossnum: the new counters, and whether the datagram goes out. */
  function Step(c: Counters, total: int, lossNum: int): (Counters, bool) {
    if c.packet < total then (c.(packet := c.packet + 1), true)
    else if c.packet == total then
      if c.loss == lossNum then (START, false)
      else (c.(loss := c.loss + 1), false)
    else (c, true)
  }

  /** The counters n calls after c. */
  function Later(c: Counters, n: nat, total: int, lossNum: int): Counters {
    if n == 0 then c else Step(Later(c, n - 1, total, lossNum), total, lossNum).0
  }

  /** The counters after n calls from the start. */
  function After(n: nat, total: int, lossNum: int): Counters {
    Later(START, n, total, lossNum)
  }

  /** Call number n (counting from 0) swallows its datagram. */
  predicate Dropped(n: nat, total: int, lossNum: int) {
    !Step(After(n, total, lossNum), total, lossNum).1
  }

  lemma {:induction false} LaterFirst(c: Counters, n: nat, total: int, lossNum: int)
    ensures Later(Step(c, total, lossNum).0, n, total, lossNum) == Later(c, n + 1, total, lossNum)
  {
    if n > 0 {
      LaterFirst(c, n - 1, total, lossNum);
    }
  }

  /** Call number n after c swallows its datagram. */
  predicate DroppedLater(c: Counters, n: nat, total: int, lossNum: int) {
    !Step(Later(c, n, total, lossNum), total, lossNum).1
  }

  /** A stretch that has passed its end, as when a call asks for a shorter one than those before, drops nothing and
      counts nothing. */
  lemma {:induction false} PastTheStretch(c: Counters, n: nat, total: int, lossNum: int)
    requires c.packet > total
    ensures Later(c, n, total, lossNum) == c && !DroppedLater(c, n, total, lossNum)
  {
    if n > 0 {
      PastTheStretch(c, n - 1, total, lossNum);
    }
  }

  /** A burst that has passed its loss number, or meets a loss number of zero or less, never ends. */
  lemma {:induction false} PastTheLossNumber(c: Counters, n: nat, total: int, lossNum: int)
    requires c.packet == total && c.loss > lossNum
    ensures Later(c, n, total, lossNum) == Counters(total, c.loss + n) && DroppedLater(c, n, total, lossNum)
  {
    if n > 0 {
      PastTheLossNumber(c, n - 1, total, lossNum);
    }
  }

  // ---- closed form

  /** One step around a cycle of length p. */
  lemma NextInCycle(n: nat, p: nat)
    requires p >= 1
    ensures (n + 1) % p == if n % p == p - 1 then 0 else n % p + 1
  {
    var q, r := n / p, n % p;
    assert n == q * p + r;
    assert (q + 1) * p == q * p + p;
    if r == p - 1 {
      DivModUnique(n + 1, q + 1, 0, p);
    } else {
      DivModUnique(n + 1, q, r + 1, p);
    }
  }

  /** Calls between the start of one burst and the start of the next. */
  function Period(total: int, lossNum: int): int {
    total - 1 + lossNum
  }

  /** The counters at position m of a cycle. */
  function InCycle(m: int, total: int): Counters {
    if m < total - 1 then Counters(1 + m, 1) else Counters(total, m - (total - 1) + 1)
  }

  lemma StepInCycle(m: nat, total: int, lossNum: int)
    requires total >= 1 && lossNum >= 1 && m < Period(total, lossNum)
    ensures Step(InCycle(m, total), total, lossNum)
         == (InCycle(if m == Period(total, lossNum) - 1 then 0 else m + 1, total), m < total - 1)
  {
  }

  /** The counters are a function of the call number modulo the length of a cycle. */
  lemma {:induction false} CountersClosedForm(n: nat, total: int, lossNum: int)
    requires total >= 1 && lossNum >= 1
    ensures 0 <= n % Period(total, lossNum) < Period(total, lossNum)
    ensures After(n, total, lossNum) == InCycle(n % Period(total, lossNum), total)
  {
    var p := Period(total, lossNum);
    if n > 0 {
      CountersClosedForm(n - 1, total, lossNum);
      NextInCycle(n - 1, p);
      StepInCycle((n - 1) % p, total, lossNum);
    } else {
      DivModUnique(0, 0, 0, p);
    }
  }

  /** With a positive loss number, call n is dropped exactly in the last lossNum positions of its cycle. */
  lemma DroppedClosedForm(n: nat, total: int, lossNum: int)
    requires total >= 1 && lossNum >= 1
    ensures Dropped(n, total, lossNum) <==> n % Period(total, lossNum) >= total - 1
  {
    CountersClosedForm(n, total, lossNum);
    StepInCycle(n % Period(total, lossNum), total, lossNum);
  }

  /** With a loss number of zero or less the burst never ends: every call from total - 1 on is dropped. */
  lemma {:induction false} NonPositiveLossNumberNeverRecovers(n: nat, total: int, lossNum: int)
    requires total >= 1 && lossNum <= 0
    ensures Dropped(n, total, lossNum) <==> n >= total - 1
    ensures After(n, total, lossNum) == if n < total - 1 then Counters(1 + n, 1) else Counters(total, n - total + 2)
  {
    if n > 0 {
      NonPositiveLossNumberNeverRecovers(n - 1, total, lossNum);
    }
  }

  /** How many of the calls from..from+len are dropped. */
  function DropsIn(from: nat, len: nat, total: int, lossNum: int): nat {
    if len == 0 then 0
    else DropsIn(from, len - 1, total, lossNum) + if Dropped(from + len - 1, total, lossNum) then 1 else 0
  }

  lemma {:induction false} DropsPeelFirst(from: nat, len: nat, total: int, lossNum: int)
    requires len >= 1
    ensures DropsIn(from, len, total, lossNum)
         == (if Dropped(from, total, lossNum) then 1 else 0) + DropsIn(from + 1, len - 1, total, lossNum)
  {
    if len > 1 {
      DropsPeelFirst(from, len - 1, total, lossNum);
      assert from + len - 1 == from + 1 + (len - 1) - 1;
    } else {
      assert DropsIn(from, 0, total, lossNum) == 0;
    }
  }

  lemma {:induction false} DropsInFirstCycle(len: nat, total: int, lossNum: int)
    requires total >= 1 && lossNum >= 1 && len <= Period(total, lossNum)
    ensures DropsIn(0, len, total, lossNum) == if len <= total - 1 then 0 else len - (total - 1)
  {
    if len > 0 {
      DropsInFirstCycle(len - 1, total, lossNum);
      DroppedClosedForm(len - 1, total, lossNum);
      DivModUnique(len - 1, 0, len - 1, Period(total, lossNum));
    }
  }

  /** Calls one period apart meet the same fate. */
  lemma SamePlaceInCycle(n: nat, total: int, lossNum: int)
    requires total >= 1 && lossNum >= 1
    ensures Dropped(n + Period(total, lossNum), total, lossNum) == Dropped(n, total, lossNum)
  {
    DroppedClosedForm(n, total, lossNum);
    DroppedClosedForm(n + Period(total, lossNum), total, lossNum);
    DivModPlus(n, Period(total, lossNum));
  }

  /** Every window of one period, wherever it starts, loses exactly lossNum datagrams. */
  lemma {:induction false} WindowDropsExactly(from: nat, total: int, lossNum: int)
    requires total >= 1 && lossNum >= 1
    ensures DropsIn(from, Period(total, lossNum), total, lossNum) == lossNum
  {
    var p := Period(total, lossNum);
    if from == 0 {
      DropsInFirstCycle(p, total, lossNum);
    } else {
      WindowDropsExactly(from - 1, total, lossNum);
      DropsPeelFirst(from - 1, p, total, lossNum);
      SamePlaceInCycle(from - 1, total, lossNum);
    }
  }

  /** With total at least 2, lossNum + 1 calls in a row are never all dropped. */
  lemma BurstIsBounded(from: nat, total: int, lossNum: int)
    requires total >= 2 && lossNum >= 1
    ensures exists k :: from <= k <= from + lossNum && !Dropped(k, total, lossNum)
  {
    if forall k :: from <= k <= from + lossNum ==> Dropped(k, total, lossNum) {
      AllDropped(from, lossNum + 1, total, lossNum);
      DropsMonotone(from, lossNum + 1, Period(total, lossNum), total, lossNum);
      WindowDropsExactly(from, total, lossNum);
      assert false;
    }
  }

  lemma {:induction false} AllDropped(from: nat, len: nat, total: int, lossNum: int)
    requires forall k :: from <= k < from + len ==> Dropped(k, total, lossNum)
    ensures DropsIn(from, len, total, lossNum) == len
  {
    if len > 0 {
      AllDropped(from, len - 1, total, lossNum);
    }
  }

  lemma {:induction false} DropsMonotone(from: nat, a: nat, b: nat, total: int, lossNum: int)
    requires a <= b
    ensures DropsIn(from, a, total, lossNum) <= DropsIn(from, b, total, lossNum)
  {
    if a < b {
      DropsMonotone(from, a, b - 1, total, lossNum);
    }
  }

  // ---- whole lists of datagrams

  /** A call of dropsendto: its datagram and its two numbers. */
  datatype Attempt<T> = Attempt(msg: T, total: int, lossNum: int)

  /** The injector together with everything that has passed it, oldest first. */
  datatype Line<T> = Line(counters: Counters, wire: seq<T>)

  function Send<T>(l: Line<T>, a: Attempt<T>): Line<T> {
    var (c, out) := Step(l.counters, a.total, a.lossNum);
    Line(c, if out then l.wire + [a.msg] else l.wire)
  }

  function SendAll<T>(l: Line<T>, attempts: seq<Attempt<T>>): Line<T>
    decreases |attempts|
  {
    if attempts == [] then l else SendAll(Send(l, attempts[0]), attempts[1..])
  }

  lemma SliceChain<T>(w0: seq<T>, w1: seq<T>, w2: seq<T>)
    requires w0 <= w1 <= w2
    ensures w0 <= w2 && w2[|w0|..] == w1[|w0|..] + w2[|w1|..]
  {
  }

  lemma SendExtends<T>(l: Line<T>, a: Attempt<T>)
    ensures l.wire <= Send(l, a).wire && forall f :: f in Send(l, a).wire[|l.wire|..] ==> f == a.msg
  {
  }

  /** Nothing is reordered or taken back: the wire only grows, and what is new on it was attempted. */
  lemma {:induction false} SendAllExtends<T>(l: Line<T>, attempts: seq<Attempt<T>>)
    ensures l.wire <= SendAll(l, attempts).wire
    ensures forall f :: f in SendAll(l, attempts).wire[|l.wire|..] ==> exists a :: a in attempts && a.msg == f
    decreases |attempts|
  {
    if attempts != [] {
      var l1 := Send(l, attempts[0]);
      var l2 := SendAll(l1, attempts[1..]);
      SendExtends(l, attempts[0]);
      SendAllExtends(l1, attempts[1..]);
      SliceChain(l.wire, l1.wire, l2.wire);
      forall f | f in l2.wire[|l.wire|..]
        ensures exists a :: a in attempts && a.msg == f
      {
        if f in l2.wire[|l1.wire|..] {
          var a :| a in attempts[1..] && a.msg == f;
          assert a in attempts;
        } else {
          assert attempts[0] in attempts;
        }
      }
    }
  }

  /** Sending one list after another is sending their concatenation. */
  lemma {:induction false} SendAllAppend<T>(l: Line<T>, a: seq<Attempt<T>>, b: seq<Attempt<T>>)
    ensures SendAll(l, a + b) == SendAll(SendAll(l, a), b)
    decreases |a|
  {
    if a == [] {
      assert a + b == b;
    } else {
      assert (a + b)[1..] == a[1..] + b;
      SendAllAppend(Send(l, a[0]), a[1..], b);
    }
  }

  /** The datagrams of a list that survive if the first call is number n: those whose calls are not dropped, in order. */
  function Survivors<T>(n: nat, attempts: seq<Attempt<T>>, total: int, lossNum: int): seq<T>
    decreases |attempts|
  {
    if attempts == [] then []
    else
      var k := |attempts| - 1;
      Survivors(n, attempts[..k], total, lossNum) + if Dropped(n + k, total, lossNum) then [] else [attempts[k].msg]
  }

  /** Exactly these go out. */
  lemma {:induction false} ExactlyTheSurvivorsGoOut<T>(l: Line<T>, n: nat, attempts: seq<Attempt<T>>, total: int, lossNum: int)
    requires l.counters == After(n, total, lossNum)
    requires forall i :: 0 <= i < |attempts| ==> attempts[i].total == total && attempts[i].lossNum == lossNum
    ensures SendAll(l, attempts) == Line(After(n + |attempts|, total, lossNum), l.wire + Survivors(n, attempts, total, lossNum))
    decreases |attempts|
  {
    if attempts == [] {
      assert l.wire + [] == l.wire;
    } else {
      var k := |attempts| - 1;
      ExactlyTheSurvivorsGoOut(l, n, attempts[..k], total, lossNum);
      SendAllLast(l, attempts);
      OneMore(l.wire, Survivors(n, attempts[..k], total, lossNum), n + k, attempts[k], total, lossNum);
    }
  }

  lemma SendAllLast<T>(l: Line<T>, attempts: seq<Attempt<T>>)
    requires attempts != []
    ensures var k := |attempts| - 1; SendAll(l, attempts) == Send(SendAll(l, attempts[..k]), attempts[k])
  {
    var k := |attempts| - 1;
    assert attempts[..k] + [attempts[k]] == attempts;
    SendAllAppend(l, attempts[..k], [attempts[k]]);
    SendAllOne(SendAll(l, attempts[..k]), attempts[k]);
  }

  lemma OneMore<T>(wire: seq<T>, survivors: seq<T>, n: nat, a: Attempt<T>, total: int, lossNum: int)
    requires a.total == total && a.lossNum == lossNum
    ensures Send(Line(After(n, total, lossNum), wire + survivors), a)
         == Line(After(n + 1, total, lossNum),
                 wire + (survivors + if Dropped(n, total, lossNum) then [] else [a.msg]))
  {
    assert (wire + survivors) + [a.msg] == wire + (survivors + [a.msg]);
    assert survivors + [] == survivors;
  }

  lemma SendAllOne<T>(l: Line<T>, a: Attempt<T>)
    ensures SendAll(l, [a]) == Send(l, a)
  {
    assert [a][1..] == [];
  }

  /** The same list sent twice puts nothing on the wire but its own datagrams. */
  lemma SendTwiceExtends<T>(l: Line<T>, attempts: seq<Attempt<T>>)
    ensures var l' := SendAll(SendAll(l, attempts), attempts);
            && l.wire <= l'.wire
            && forall f :: f in l'.wire[|l.wire|..] ==> exists a :: a in attempts && a.msg == f
  {
    SendAllAppend(l, attempts, attempts);
    SendAllExtends(l, attempts + attempts);
  }
}
