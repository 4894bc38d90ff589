/** Book-keeping for payloads that travel over a network: every payload sent or repeated is in flight,
    delivered or lost. */
module Ledgers {
  import opened Frame

  type Payload = seq<Byte>

  /** What happened to the payloads of one direction. */
  datatype Ledger = Ledger(sent: multiset<Payload>, delivered: multiset<Payload>,
                           lost: multiset<Payload>, copied: multiset<Payload>)

  const CLEAN: Ledger := Ledger(multiset{}, multiset{}, multiset{}, multiset{})

  function Credit(m: multiset<Payload>, p: Payload): multiset<Payload> {
    m + multiset{p}
  }

  function Without<T>(s: seq<T>, i: nat): seq<T>
    requires i < |s|
  {
    s[..i] + s[i + 1..]
  }

  /** What is in flight, where `one` says what a single datagram carries in the direction of interest. */
  ghost function Flying<D>(one: D -> multiset<Payload>, net: seq<D>): multiset<Payload> {
    if net == [] then multiset{} else one(net[0]) + Flying(one, net[1..])
  }

  /** Nothing is created or swallowed: sent and repeated payloads are in flight, delivered or lost. */
  ghost predicate Balanced(l: Ledger, flying: multiset<Payload>) {
    l.sent + l.copied == l.delivered + flying + l.lost
  }

  /** A payload is booked as new on the network, or as gone from it. */
  ghost predicate Entered(l: Ledger, l': Ledger, p: Payload) {
    l' == l.(sent := Credit(l.sent, p)) || l' == l.(copied := Credit(l.copied, p))
  }

  ghost predicate Landed(l: Ledger, l': Ledger, p: Payload) {
    l' == l.(delivered := Credit(l.delivered, p)) || l' == l.(lost := Credit(l.lost, p))
  }

  // ---- proofs

  lemma {:induction false} FlyingAppend<D>(one: D -> multiset<Payload>, net: seq<D>, d: D)
    ensures Flying(one, net + [d]) == Flying(one, net) + one(d)
  {
    if net == [] {
      assert [] + [d] == [d];
      assert Flying(one, [d]) == one(d) + Flying(one, []);
    } else {
      assert (net + [d])[1..] == net[1..] + [d];
      FlyingAppend(one, net[1..], d);
    }
  }

  lemma {:induction false} FlyingWithout<D>(one: D -> multiset<Payload>, net: seq<D>, i: nat)
    requires i < |net|
    ensures Flying(one, net) == Flying(one, Without(net, i)) + one(net[i])
  {
    if i == 0 {
      assert Without(net, 0) == net[1..];
    } else {
      assert Without(net, i)[1..] == Without(net[1..], i - 1);
      FlyingWithout(one, net[1..], i - 1);
    }
  }

  lemma BalancedEnter(l: Ledger, l': Ledger, flying: multiset<Payload>, p: Payload)
    requires Balanced(l, flying) && Entered(l, l', p)
    ensures Balanced(l', flying + multiset{p})
  {
    assert (l.sent + multiset{p}) + l.copied == (l.sent + l.copied) + multiset{p};
    assert l.delivered + (flying + multiset{p}) + l.lost == (l.delivered + flying + l.lost) + multiset{p};
  }

  lemma BalancedLand(l: Ledger, l': Ledger, flying: multiset<Payload>, p: Payload)
    requires Balanced(l, flying + multiset{p}) && Landed(l, l', p)
    ensures Balanced(l', flying)
  {
    assert l.delivered + (flying + multiset{p}) + l.lost == (l.delivered + multiset{p}) + flying + l.lost;
    assert l.delivered + (flying + multiset{p}) + l.lost == l.delivered + flying + (l.lost + multiset{p});
  }

  /** A datagram that enters the network is booked, or carries nothing in this direction. */
  lemma LedgerPlus<D>(one: D -> multiset<Payload>, net: seq<D>, d: D, p: Payload, l: Ledger, l': Ledger)
    requires Balanced(l, Flying(one, net))
    requires (one(d) == multiset{p} && Entered(l, l', p)) || (one(d) == multiset{} && l' == l)
    ensures Balanced(l', Flying(one, net + [d]))
  {
    FlyingAppend(one, net, d);
    if one(d) == multiset{p} {
      BalancedEnter(l, l', Flying(one, net), p);
    }
  }

  /** A datagram that leaves the network is booked, or carried nothing in this direction. */
  lemma LedgerMinus<D>(one: D -> multiset<Payload>, net: seq<D>, i: nat, p: Payload, l: Ledger, l': Ledger)
    requires i < |net| && Balanced(l, Flying(one, net))
    requires (one(net[i]) == multiset{p} && Landed(l, l', p)) || (one(net[i]) == multiset{} && l' == l)
    ensures Balanced(l', Flying(one, Without(net, i)))
  {
    FlyingWithout(one, net, i);
    if one(net[i]) == multiset{p} {
      BalancedLand(l, l', Flying(one, Without(net, i)), p);
    }
  }

  /** A datagram is replaced by one that carries the same. */
  lemma LedgerMove<D>(one: D -> multiset<Payload>, net: seq<D>, i: nat, d: D, l: Ledger)
    requires i < |net| && one(d) == one(net[i]) && Balanced(l, Flying(one, net))
    ensures Balanced(l, Flying(one, Without(net, i) + [d]))
  {
    FlyingWithout(one, net, i);
    FlyingAppend(one, Without(net, i), d);
  }

  /** What is on the network after one datagram was taken and another put in its place. */
  lemma ReplacedNet<T>(net: seq<T>, i: nat, d: T)
    requires i < |net|
    ensures forall k :: 0 <= k < |Without(net, i) + [d]| ==> (Without(net, i) + [d])[k] in net || (Without(net, i) + [d])[k] == d
    ensures forall k :: 0 <= k < |Without(net, i)| ==> Without(net, i)[k] in net
  {
  }
}
