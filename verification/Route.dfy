/** The text of a source route: names between dollar signs. The builder writes it, every
    router on the way takes it apart, drops the last name and writes it again. */
module Route {

  const DOLLAR: char := '$'

  datatype Option<T> = None | Some(value: T)

  // ---- specification

  function Flat(ts: seq<string>): string {
    if ts == [] then "" else ts[0] + "$" + Flat(ts[1..])
  }

  /** The route that carries these names. */
  function Encode(ts: seq<string>): string {
    "$" + Flat(ts)
  }

  /** A name that survives the trip: not empty, without a dollar sign. */
  predicate Clean(t: string) {
    t != "" && DOLLAR !in t
  }

  predicate AllClean(ts: seq<string>) {
    forall i :: 0 <= i < |ts| ==> Clean(ts[i])
  }

  function SkipDollars(s: string): (r: string)
    ensures |r| <= |s| && (r != "" ==> r[0] != DOLLAR)
  {
    if s != "" && s[0] == DOLLAR then SkipDollars(s[1..]) else s
  }

  /** Length of the run of s before its first dollar sign. */
  function NameLen(s: string): (k: nat)
    ensures k <= |s| && DOLLAR !in s[..k] && (k < |s| ==> s[k] == DOLLAR)
  {
    if s == "" || s[0] == DOLLAR then 0
    else
      var k := NameLen(s[1..]);
      assert s[..k + 1] == [s[0]] + s[1..][..k];
      k + 1
  }

  /** One call of strtok: the next name and the text after the dollar sign that ends it. */
  function StrTok(s: string): (r: Option<(string, string)>)
    ensures r.Some? ==> Clean(r.value.0) && |r.value.1| < |s|
  {
    var t := SkipDollars(s);
    var k := NameLen(t);
    if t == "" then None
    else Some((t[..k], if k < |t| then t[k + 1..] else ""))
  }

  /** All names of a received text. */
  function Tokens(s: string): (ts: seq<string>)
    ensures AllClean(ts)
    decreases |s|
  {
    match StrTok(s)
    case None => []
    case Some((name, rest)) => [name] + Tokens(rest)
  }

  // ---- the program

  /** The builder: a route from its arguments, and the router it goes to first. */
  method BuildRoute(argv: seq<string>) returns (str: string, hostname: string, port: string)
    requires |argv| > 5
    ensures str == Encode(argv[1..|argv| - 2])
    ensures hostname == argv[|argv| - 3] && port == argv[|argv| - 2]
  {
    var argc := |argv|;
    str := "$";
    str := str + argv[1] + "$";
    str := str + argv[2] + "$";
    assert Flat(argv[1..3]) == argv[1] + "$" + argv[2] + "$" by {
      assert argv[1..3] == [argv[1], argv[2]];
      FlatSnoc([argv[1]], argv[2]);
    }
    var a := 3;
    while a < argc - 2
      invariant 3 <= a <= argc - 2
      invariant str == Encode(argv[1..a])
    {
      FlatSnoc(argv[1..a], argv[a]);
      assert argv[1..a + 1] == argv[1..a] + [argv[a]];
      str := str + argv[a] + "$";
      a := a + 1;
    }
    hostname := argv[argc - 3];
    port := argv[argc - 2];
  }

  /** The strtok loop. */
  method Tokenise(buffer: string) returns (names: seq<string>)
    ensures names == Tokens(buffer)
  {
    names := [];
    var rest := buffer;
    var tok := StrTok(rest);
    while tok.Some?
      invariant tok == StrTok(rest)
      invariant names + Tokens(rest) == Tokens(buffer)
      decreases |rest|
    {
      names := names + [tok.value.0];
      rest := tok.value.1;
      tok := StrTok(rest);
    }
  }

  /** The strcat loop that writes every name but the last. */
  method Rebuild(names: seq<string>) returns (str: string)
    requires |names| >= 1
    ensures str == Encode(names[..|names| - 1])
  {
    str := "$";
    var a := |names|;
    var x := 0;
    while x < a
      invariant 0 <= x <= a
      invariant str == Encode(if x <= a - 1 then names[..x] else names[..a - 1])
    {
      if x <= a - 2 {
        FlatSnoc(names[..x], names[x]);
        assert names[..x + 1] == names[..x] + [names[x]];
        str := str + names[x];
        str := str + "$";
      }
      x := x + 1;
    }
  }

  // ---- proofs

  lemma {:induction false} FlatSnoc(ts: seq<string>, t: string)
    ensures Flat(ts + [t]) == Flat(ts) + t + "$"
  {
    if ts == [] {
      assert [] + [t] == [t];
      assert Flat([t]) == t + "$" + Flat([]);
    } else {
      assert (ts + [t])[1..] == ts[1..] + [t];
      FlatSnoc(ts[1..], t);
      assert ts[0] + "$" + (Flat(ts[1..]) + t + "$") == (ts[0] + "$" + Flat(ts[1..])) + t + "$";
    }
  }

  lemma NameLenIs(s: string, k: nat)
    requires k < |s| && s[k] == DOLLAR && DOLLAR !in s[..k]
    ensures NameLen(s) == k
  {
    var n := NameLen(s);
    assert forall i :: 0 <= i < k ==> s[i] in s[..k];
    assert forall i :: 0 <= i < n ==> s[i] in s[..n];
  }

  lemma StrTokOfFlat(t: string, rest: string)
    requires Clean(t)
    ensures StrTok(t + "$" + rest) == Some((t, rest))
  {
    var s := t + "$" + rest;
    assert s[..|t|] == t;
    NameLenIs(s, |t|);
    assert s[|t| + 1..] == rest;
    assert t[0] in t;
    assert SkipDollars(s) == s;
  }

  lemma {:induction false} TokensOfFlat(ts: seq<string>)
    requires AllClean(ts)
    ensures Tokens(Flat(ts)) == ts
  {
    if ts != [] {
      StrTokOfFlat(ts[0], Flat(ts[1..]));
      TokensOfFlat(ts[1..]);
    }
  }

  /** Taking an encoded route apart gives the names back exactly when they are all non-empty and free of dollar signs. */
  lemma RouteRoundTripIff(ts: seq<string>)
    ensures Tokens(Encode(ts)) == ts <==> AllClean(ts)
  {
    if AllClean(ts) {
      TokensOfFlat(ts);
      LeadingDollar(Flat(ts));
    }
  }

  lemma LeadingDollar(s: string)
    ensures Tokens("$" + s) == Tokens(s)
  {
    assert ("$" + s)[1..] == s;
    assert StrTok("$" + s) == StrTok(s);
  }

  /** One router step, on any text at all: the next router reads the same names without the last one,
      so its list is one shorter and ends with the name the text was sent to. */
  lemma RouterStep(text: string)
    requires |Tokens(text)| >= 2
    ensures var ts := Tokens(text);
            var next := Tokens(Encode(ts[..|ts| - 1]));
            next == ts[..|ts| - 1] && next[|next| - 1] == ts[|ts| - 2]
  {
    RouteRoundTripIff(Tokens(text)[..|Tokens(text)| - 1]);
  }

  /** The text of a list is a dollar sign, and each name followed by one. */
  lemma EncodeIsJoined(ts: seq<string>, t: string)
    ensures Encode([]) == "$" && Encode(ts + [t]) == Encode(ts) + t + "$"
  {
    FlatSnoc(ts, t);
  }

  // ---- what strtok finds in any text

  lemma TokensOfName(t: string)
    requires Clean(t)
    ensures Tokens(t) == [t]
  {
    NameLenOfClean(t);
    assert t[0] in t;
    assert SkipDollars(t) == t && t[..|t|] == t;
    assert StrTok(t) == Some((t, ""));
    assert Tokens("") == [];
  }

  lemma {:induction false} NameLenOfClean(t: string)
    requires DOLLAR !in t
    ensures NameLen(t) == |t|
  {
    if t != "" {
      assert t[0] in t;
      assert t == [t[0]] + t[1..];
      NameLenOfClean(t[1..]);
    }
  }

  /** The names of any two texts with a dollar sign in between are those of the first, then those of the second. Together
      with TokensOfName and the empty text this says what the names of any text are. */
  lemma {:induction false} TokensSplit(a: string, b: string)
    ensures Tokens("") == []
    ensures Tokens(a + "$" + b) == Tokens(a) + Tokens(b)
    decreases |a|
  {
    if a == "" {
      LeadingDollar(b);
      assert a + "$" + b == "$" + b;
      assert Tokens(a) + Tokens(b) == Tokens(b);
    } else if a[0] == DOLLAR {
      assert a == "$" + a[1..];
      LeadingDollar(a[1..]);
      LeadingDollar(a[1..] + "$" + b);
      assert a + "$" + b == "$" + (a[1..] + "$" + b);
      TokensSplit(a[1..], b);
    } else {
      SplitAfterName(a, NameLen(a), b);
    }
  }

  lemma {:induction false} SplitAfterName(a: string, k: nat, b: string)
    requires a != "" && a[0] != DOLLAR && k == NameLen(a)
    ensures Tokens(a + "$" + b) == Tokens(a) + Tokens(b)
    decreases |a|, 0
  {
    FirstName(a, k);
    if k == |a| {
      assert a[..k] == a;
      TokensOfName(a);
      TokensPeel(a, b);
    } else {
      TokensSplit(a[k + 1..], b);
      NameInFront(a[..k], a[k + 1..], b);
    }
  }

  lemma FirstName(a: string, k: nat)
    requires a != "" && a[0] != DOLLAR && k == NameLen(a)
    ensures k <= |a| && Clean(a[..k]) && (k < |a| ==> a == a[..k] + "$" + a[k + 1..])
  {
  }

  lemma NameInFront(name: string, rest: string, b: string)
    requires Clean(name) && Tokens(rest + "$" + b) == Tokens(rest) + Tokens(b)
    ensures Tokens((name + "$" + rest) + "$" + b) == Tokens(name + "$" + rest) + Tokens(b)
  {
    ThreeParts(name, rest, b);
    TokensPeel(name, rest);
    TokensPeel(name, rest + "$" + b);
    ConsAssociates(name, Tokens(rest), Tokens(b));
  }

  lemma ThreeParts(name: string, rest: string, b: string)
    ensures (name + "$" + rest) + "$" + b == name + "$" + (rest + "$" + b)
  {
  }

  lemma ConsAssociates(t: string, a: seq<string>, b: seq<string>)
    ensures [t] + (a + b) == ([t] + a) + b
  {
  }

  // ---- the router's buffer

  /** What a router's buffer holds after a datagram: recvfrom ends the text with nothing, so what a longer one has left
      behind stays. */
  function Received(before: string, text: string): string {
    if |before| <= |text| then text else text + before[|text|..]
  }

  /** The datagram overwrites the front of the buffer, byte by byte, and nothing else. */
  lemma ReceivedAt(before: string, text: string, i: nat)
    requires i < |before| || i < |text|
    ensures i < |Received(before, text)| && (|Received(before, text)| == |before| || |Received(before, text)| == |text|)
    ensures Received(before, text)[i] == if i < |text| then text[i] else before[i]
  {
  }

  /** Nothing but dollar signs is left behind this text. */
  predicate Harmless(before: string, text: string) {
    |before| <= |text| || Tokens(before[|text|..]) == []
  }

  lemma {:induction false} TokensAfterFlat(ts: seq<string>, rest: string)
    requires AllClean(ts)
    ensures Tokens(Flat(ts) + rest) == ts + Tokens(rest)
  {
    if ts == [] {
      assert Flat(ts) + rest == rest;
      assert ts + Tokens(rest) == Tokens(rest);
    } else {
      TokensAfterFlat(ts[1..], rest);
      TokensOfLonger(ts[0], Flat(ts[1..]), rest, ts[1..]);
      assert [ts[0]] + ts[1..] == ts;
    }
  }

  lemma TokensOfLonger(t: string, flat: string, rest: string, names: seq<string>)
    requires Clean(t) && Tokens(flat + rest) == names + Tokens(rest)
    ensures Tokens((t + "$" + flat) + rest) == ([t] + names) + Tokens(rest)
  {
    FlatPeel(t, flat, rest);
    TokensPeel(t, flat + rest);
    assert [t] + (names + Tokens(rest)) == ([t] + names) + Tokens(rest);
  }

  lemma FlatPeel(t: string, flat: string, rest: string)
    ensures (t + "$" + flat) + rest == t + "$" + (flat + rest)
  {
  }

  lemma TokensPeel(t: string, rest: string)
    requires Clean(t)
    ensures Tokens(t + "$" + rest) == [t] + Tokens(rest)
  {
    StrTokOfFlat(t, rest);
  }

  /** What a list reads as in front of something else. */
  lemma TokensInFront(ts: seq<string>, rest: string)
    requires AllClean(ts)
    ensures Tokens(Encode(ts) + rest) == ts + Tokens(rest)
  {
    TokensAfterFlat(ts, rest);
    DollarInFront(Flat(ts), rest);
  }

  lemma DollarInFront(flat: string, rest: string)
    ensures Tokens(("$" + flat) + rest) == Tokens(flat + rest)
  {
    LeadingDollar(flat + rest);
    assert "$" + (flat + rest) == ("$" + flat) + rest;
  }

  /** A router reads the list it is sent if and only if nothing but dollar signs is left behind it. */
  lemma ReadsAsSentIff(before: string, ts: seq<string>)
    requires AllClean(ts)
    ensures Tokens(Received(before, Encode(ts))) == ts <==> Harmless(before, Encode(ts))
  {
    RouteRoundTripIff(ts);
    if |before| > |Encode(ts)| {
      TokensInFront(ts, before[|Encode(ts)|..]);
    }
  }

  lemma {:induction false} FlatPrefix(ts: seq<string>, k: nat)
    requires k <= |ts|
    ensures Flat(ts[..k]) <= Flat(ts)
    ensures k < |ts| ==> |Flat(ts[..k])| < |Flat(ts)|
  {
    if k > 0 {
      FlatPrefix(ts[1..], k - 1);
      assert ts[..k][1..] == ts[1..][..k - 1];
    }
  }

  /** The texts of shorter lists begin those of longer ones. */
  lemma EncodePrefix(ts: seq<string>, k: nat)
    requires k <= |ts|
    ensures Encode(ts[..k]) <= Encode(ts)
  {
    FlatPrefix(ts, k);
  }

  /** A buffer that begins with a list and reads as that list. */
  predicate Holds(buffer: string, ts: seq<string>) {
    Encode(ts) <= buffer && Tokens(buffer) == ts
  }

  /** A router that has taken a list of names and is then sent the first k of them reads the whole list again; so it reads
      what it is sent exactly if that is the same list. */
  lemma SecondVisitReadsTheFirstList(buffer: string, ts: seq<string>, k: nat)
    requires AllClean(ts) && k <= |ts| && Holds(buffer, ts)
    ensures Received(buffer, Encode(ts[..k])) == buffer
    ensures Tokens(Received(buffer, Encode(ts[..k]))) == ts[..k] <==> k == |ts|
  {
    EncodePrefix(ts, k);
    assert Encode(ts[..k]) <= buffer;
  }

  /** A list that goes on behind its first k names, or behind which the buffer does, leaves names behind these. */
  lemma NamesStayBehind(before: string, ts: seq<string>, k: nat)
    requires AllClean(ts) && k <= |ts| && (k == |ts| ==> !Harmless(before, Encode(ts)))
    ensures var read := Received(before, Encode(ts));
            ts[..k] <= Tokens(read) && |Tokens(read)| > k && !Harmless(read, Encode(ts[..k]))
  {
    var read := Received(before, Encode(ts));
    EncodePrefix(ts, k);
    ReadsOn(before, ts);
    assert Received(read, Encode(ts[..k])) == read;
    ReadsAsSentIff(before, ts);
    ReadsAsSentIff(read, ts[..k]);
    assert ts[..|ts|] == ts;
  }

  /** What is read begins with what was sent. */
  lemma ReadsOn(before: string, ts: seq<string>)
    requires AllClean(ts)
    ensures ts <= Tokens(Received(before, Encode(ts)))
  {
    RouteRoundTripIff(ts);
    if |before| > |Encode(ts)| {
      TokensInFront(ts, before[|Encode(ts)|..]);
    }
  }

  /** A list read as sent is held from then on. */
  lemma FirstVisitHolds(before: string, ts: seq<string>)
    requires AllClean(ts) && Harmless(before, Encode(ts))
    ensures Holds(Received(before, Encode(ts)), ts)
  {
    ReadsAsSentIff(before, ts);
  }
}
