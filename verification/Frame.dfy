/** The datagram that carries one file block: an 8-byte header `%7d|` holding the
    sequence number, then the block. The server formats it with sprintf; the client
    reads it back with atoi on the first 8 bytes and a scan for the first bar. */
module Frame {

  type Byte = b: int | 0 <= b < 256

  const SPACE: Byte := 32
  const PLUS: Byte := 43
  const MINUS: Byte := 45
  const ZERO: Byte := 48
  const BAR: Byte := 124

  const HEADER_SIZE: nat := 8
  /** Largest sequence number that `%7d` prints in seven columns. */
  const MAX_SEQ: nat := 9999999

  predicate IsDigit(b: Byte) { ZERO <= b <= ZERO + 9 }

  predicate IsSpace(b: Byte) { b == SPACE || 9 <= b <= 13 }

  /** Decimal digits of n without leading zeros. */
  function Digits(n: nat): (ds: seq<Byte>)
    ensures |ds| >= 1
    ensures forall i :: 0 <= i < |ds| ==> IsDigit(ds[i])
  {
    if n < 10 then [ZERO + n] else Digits(n / 10) + [ZERO + n % 10]
  }

  function Spaces(n: nat): (s: seq<Byte>)
    ensures |s| == n && forall i :: 0 <= i < n ==> s[i] == SPACE
  {
    if n == 0 then [] else [SPACE] + Spaces(n - 1)
  }

  /** What `%7d|` prints for a non-negative number. */
  function Printed(n: nat): seq<Byte> {
    var ds := Digits(n);
    Spaces(if |ds| < 7 then 7 - |ds| else 0) + ds + [BAR]
  }

  /** The header: the first 8 characters of the printed text are copied. */
  function Header(n: nat): (h: seq<Byte>)
    ensures |h| == HEADER_SIZE
  {
    Printed(n)[..HEADER_SIZE]
  }

  function Pack(n: nat, data: seq<Byte>): seq<Byte> {
    Header(n) + data
  }

  // ---- the receiving side

  function SkipSpaces(s: seq<Byte>): seq<Byte> {
    if |s| > 0 && IsSpace(s[0]) then SkipSpaces(s[1..]) else s
  }

  /** Value of the leading digit run of s, continuing from acc. */
  function DigitRun(s: seq<Byte>, acc: nat): nat {
    if |s| > 0 && IsDigit(s[0]) then DigitRun(s[1..], 10 * acc + (s[0] - ZERO)) else acc
  }

  /** C's atoi: optional white space, optional sign, digits up to the first non-digit. */
  function Atoi(s: seq<Byte>): int {
    var t := SkipSpaces(s);
    if |t| > 0 && t[0] == MINUS then 0 - DigitRun(t[1..], 0)
    else if |t| > 0 && t[0] == PLUS then DigitRun(t[1..], 0)
    else DigitRun(t, 0)
  }

  /** Index of the first bar, or |s| when there is none. */
  function FirstBar(s: seq<Byte>): (k: nat)
    ensures k <= |s|
    ensures k < |s| ==> s[k] == BAR
    ensures BAR !in s[..k]
  {
    if |s| == 0 || s[0] == BAR then 0
    else
      var k := FirstBar(s[1..]);
      assert s[..k + 1] == [s[0]] + s[1..][..k];
      k + 1
  }

  function DecodedSeq(frame: seq<Byte>): int
    requires |frame| >= HEADER_SIZE
  {
    Atoi(frame[..HEADER_SIZE])
  }

  /** A frame the client can take apart for block size bs: the bar is found, and bs bytes follow it. */
  predicate Readable(frame: seq<Byte>, bs: nat) {
    |frame| >= HEADER_SIZE && FirstBar(frame) + 1 + bs <= |frame|
  }

  function DecodedData(frame: seq<Byte>, bs: nat): (d: seq<Byte>)
    requires Readable(frame, bs)
    ensures |d| == bs
  {
    var k := FirstBar(frame) + 1;
    frame[k..k + bs]
  }

  function Zeros(n: nat): (z: seq<Byte>)
    ensures |z| == n && forall i :: 0 <= i < n ==> z[i] == 0
  {
    seq(n, _ => 0)
  }

  // ---- proofs

  lemma {:induction false} DigitRunSplit(ds: seq<Byte>, rest: seq<Byte>, acc: nat)
    requires forall i :: 0 <= i < |ds| ==> IsDigit(ds[i])
    ensures DigitRun(ds + rest, acc) == DigitRun(rest, DigitRun(ds, acc))
  {
    if ds == [] {
      assert ds + rest == rest;
    } else {
      assert (ds + rest)[1..] == ds[1..] + rest;
      DigitRunSplit(ds[1..], rest, 10 * acc + (ds[0] - ZERO));
    }
  }

  lemma {:induction false} DigitRunOfDigits(n: nat)
    ensures DigitRun(Digits(n), 0) == n
  {
    if n >= 10 {
      DigitRunOfDigits(n / 10);
      DigitRunSplit(Digits(n / 10), [ZERO + n % 10], 0);
      assert [ZERO + n % 10][1..] == [];
    }
  }

  function Pow10(k: nat): nat {
    if k == 0 then 1 else 10 * Pow10(k - 1)
  }

  lemma {:induction false} DigitCount(n: nat, k: nat)
    requires k >= 1 && n < Pow10(k)
    ensures |Digits(n)| <= k
  {
    assert Pow10(1) == 10;
    if n >= 10 {
      DigitCount(n / 10, k - 1);
    }
  }

  lemma {:induction false} SkipLeadingSpaces(k: nat, rest: seq<Byte>)
    requires |rest| > 0 && !IsSpace(rest[0])
    ensures SkipSpaces(Spaces(k) + rest) == rest
  {
    if k == 0 {
      assert Spaces(0) + rest == rest;
    } else {
      assert (Spaces(k) + rest)[1..] == Spaces(k - 1) + rest;
      SkipLeadingSpaces(k - 1, rest);
    }
  }

  lemma {:induction false} FirstBarIs(s: seq<Byte>, k: nat)
    requires k < |s| && s[k] == BAR && BAR !in s[..k]
    ensures FirstBar(s) == k
  {
    if k > 0 {
      assert s[..k] == [s[0]] + s[1..][..k - 1];
      FirstBarIs(s[1..], k - 1);
    }
  }

  lemma TenToTheSeventh()
    ensures Pow10(7) == MAX_SEQ + 1
  {
    assert Pow10(3) == 1000;
    assert Pow10(5) == 100000;
  }

  /** The header of a seven-digit number is blanks, its digits, a bar, and nothing is cut off. */
  lemma HeaderShape(n: nat)
    requires n <= MAX_SEQ
    ensures |Digits(n)| <= 7
    ensures Header(n) == Spaces(7 - |Digits(n)|) + Digits(n) + [BAR]
  {
    TenToTheSeventh();
    DigitCount(n, 7);
  }

  /** One header in print. */
  lemma HeaderOf4072()
    ensures forall i :: 0 <= i < 8 ==> Header(4072)[i] == "   4072|"[i] as int
  {
    HeaderShape(4072);
    assert Digits(4072) == Digits(407) + [ZERO + 2] && Digits(407) == Digits(40) + [ZERO + 7];
    assert Digits(40) == Digits(4) + [ZERO] && Digits(4) == [ZERO + 4];
    assert Digits(4072) == [ZERO + 4, ZERO, ZERO + 7, ZERO + 2];
  }

  /** The receiver recovers exactly the number and the data, whatever bytes the data holds. */
  lemma RoundTrip(n: nat, data: seq<Byte>)
    requires n <= MAX_SEQ
    ensures |Pack(n, data)| == HEADER_SIZE + |data|
    ensures DecodedSeq(Pack(n, data)) == n
    ensures FirstBar(Pack(n, data)) == HEADER_SIZE - 1
    ensures Readable(Pack(n, data), |data|)
    ensures DecodedData(Pack(n, data), |data|) == data
  {
    HeaderShape(n);
    var ds := Digits(n);
    var f := Pack(n, data);
    assert f[..HEADER_SIZE] == Spaces(7 - |ds|) + (ds + [BAR]);
    SkipLeadingSpaces(7 - |ds|, ds + [BAR]);
    DigitRunSplit(ds, [BAR], 0);
    DigitRunOfDigits(n);
    assert f[..7] == Spaces(7 - |ds|) + ds;
    FirstBarIs(f, 7);
  }

  lemma {:induction false} DigitCountBelow(n: nat, k: nat)
    requires |Digits(n)| <= k
    ensures n < Pow10(k)
  {
    if n >= 10 {
      DigitCountBelow(n / 10, k - 1);
    } else {
      assert Pow10(k) == 10 * Pow10(k - 1);
      Pow10Positive(k - 1);
    }
  }

  lemma {:induction false} Pow10Positive(k: nat)
    ensures Pow10(k) >= 1
  {
    if k > 0 {
      Pow10Positive(k - 1);
    }
  }

  /** The header carries its bar exactly when the number fits seven columns; beyond that the bar is cut off. */
  lemma HeaderHasBarIff(n: nat)
    ensures BAR in Header(n) <==> n <= MAX_SEQ
  {
    TenToTheSeventh();
    if n <= MAX_SEQ {
      HeaderShape(n);
      assert Header(n)[7] == BAR;
    } else {
      var ds := Digits(n);
      if |ds| <= 7 {
        DigitCountBelow(n, 7);
        assert false;
      }
      assert Header(n) == ds[..8] by {
        assert Printed(n) == ds + [BAR];
      }
    }
  }

  /** The receiver reads eight bytes for the number: one of eight digits is still recovered, although its bar is lost. */
  lemma EightDigitsAreRead(n: nat, data: seq<Byte>)
    requires MAX_SEQ < n < Pow10(8)
    ensures |Pack(n, data)| == HEADER_SIZE + |data| && DecodedSeq(Pack(n, data)) == n && BAR !in Header(n)
  {
    TenToTheSeventh();
    HeaderHasBarIff(n);
    var ds := Digits(n);
    DigitCount(n, 8);
    if |ds| <= 7 {
      DigitCountBelow(n, 7);
      assert false;
    }
    assert Printed(n) == ds + [BAR] && Header(n) == ds;
    assert Pack(n, data)[..HEADER_SIZE] == ds;
    DigitRunOfDigits(n);
    assert SkipSpaces(ds) == ds;
  }

  // ---- what the printed and read texts mean

  predicate AllDigits(s: seq<Byte>) {
    forall i :: 0 <= i < |s| ==> IsDigit(s[i])
  }

  predicate AllSpaces(s: seq<Byte>) {
    forall i :: 0 <= i < |s| ==> s[i] == ' ' as int || '\t' as int <= s[i] <= '\r' as int
  }

  /** The number that decimal digits stand for, the last one for the units. */
  function DecimalValue(ds: seq<Byte>): nat
    requires AllDigits(ds)
  {
    if ds == [] then 0 else 10 * DecimalValue(ds[..|ds| - 1]) + (ds[|ds| - 1] - ZERO)
  }

  lemma DecimalSnoc(ds: seq<Byte>, d: Byte)
    requires AllDigits(ds) && IsDigit(d)
    ensures AllDigits(ds + [d]) && DecimalValue(ds + [d]) == 10 * DecimalValue(ds) + (d - ZERO)
  {
    assert (ds + [d])[..|ds|] == ds;
  }

  /** What is printed are the decimal digits of the number, without leading zeros. */
  lemma {:induction false} DigitsAreDecimal(n: nat)
    ensures AllDigits(Digits(n)) && DecimalValue(Digits(n)) == n
    ensures |Digits(n)| > 1 ==> Digits(n)[0] != ZERO
  {
    if n >= 10 {
      DigitsAreDecimal(n / 10);
      DecimalSnoc(Digits(n / 10), ZERO + n % 10);
    } else {
      assert Digits(n)[..0] == [];
    }
  }

  lemma {:induction false} DigitRunIsDecimal(ds: seq<Byte>, rest: seq<Byte>)
    requires AllDigits(ds) && (rest == [] || !IsDigit(rest[0]))
    ensures DigitRun(ds + rest, 0) == DecimalValue(ds)
    decreases |ds|
  {
    DigitRunSplit(ds, rest, 0);
    if ds != [] {
      var front, d := ds[..|ds| - 1], ds[|ds| - 1];
      DigitRunIsDecimal(front, []);
      assert front + [] == front && front + [d] == ds;
      DigitRunSplit(front, [d], 0);
      assert [d][1..] == [];
    }
  }

  /** The signs that atoi reads. */
  predicate IsSign(sign: seq<Byte>) {
    sign == [] || sign == ['+' as int] || sign == ['-' as int]
  }

  /** atoi on any text: white space, perhaps a sign, the value of the digits that follow, and whatever comes then. */
  lemma AtoiReads(spaces: seq<Byte>, sign: seq<Byte>, ds: seq<Byte>, rest: seq<Byte>)
    requires AllSpaces(spaces) && IsSign(sign) && AllDigits(ds)
    requires rest == [] || !IsDigit(rest[0])
    requires sign == [] && ds == [] && rest != [] ==> !AllSpaces(rest[..1]) && !IsSign(rest[..1])
    ensures var v: int := DecimalValue(ds); Atoi(spaces + (sign + (ds + rest))) == if sign == ['-' as int] then -v else v
  {
    var text := sign + (ds + rest);
    SkipAllSpaces(spaces, text);
    DigitRunIsDecimal(ds, rest);
    if sign == [] {
      assert text == ds + rest;
    } else {
      assert text[1..] == ds + rest;
    }
  }

  lemma AtoiOfDigits(ds: seq<Byte>)
    requires AllDigits(ds)
    ensures Atoi(ds) == DecimalValue(ds)
  {
    AtoiReads([], [], ds, []);
    assert [] + ([] + (ds + [])) == ds;
  }

  lemma {:induction false} SkipAllSpaces(spaces: seq<Byte>, rest: seq<Byte>)
    requires AllSpaces(spaces) && (rest == [] || !IsSpace(rest[0]))
    ensures SkipSpaces(spaces + rest) == rest
  {
    if spaces == [] {
      assert spaces + rest == rest;
    } else {
      assert (spaces + rest)[1..] == spaces[1..] + rest;
      SkipAllSpaces(spaces[1..], rest);
    }
  }
}
