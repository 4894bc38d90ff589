/** The checksum trailer of the TCP file transfer: the server streams the file and then the sum of
    its bytes as eight big-endian bytes; the clients store everything and check the sum. */
module Checksum {
  import opened Arithmetic
  import opened Frame

  /** Number of values of a 64-bit word. */
  const WORD: nat := 0x1_0000_0000_0000_0000
  const HALF: int := 0x8000_0000_0000_0000
  const TRAILER_SIZE: nat := 8

  // ---- sums and words

  /** A byte as C's char and Java's byte see it. */
  function Signed(b: Byte): int {
    if b < 128 then b else b - 256
  }

  /** It is the number below 128 in size that differs from the byte by a multiple of 256. */
  lemma SignedIs(b: Byte)
    ensures -128 <= Signed(b) < 128 && (b - Signed(b)) % 256 == 0
  {
  }

  function Sum(s: seq<Byte>): int {
    if s == [] then 0 else Sum(s[..|s| - 1]) + Signed(s[|s| - 1])
  }

  function Word(x: int): (w: nat)
    ensures w < WORD
  {
    x % WORD
  }

  /** The value of a 64-bit signed integer after wrap-around. */
  function Long(x: int): (l: int)
    ensures -HALF <= l < HALF
  {
    (x + HALF) % WORD - HALF
  }

  function BigEndian(n: nat, k: nat): (s: seq<Byte>)
    ensures |s| == k
  {
    if k == 0 then [] else BigEndian(n / 256, k - 1) + [n % 256]
  }

  function FromBigEndian(s: seq<Byte>): nat {
    if s == [] then 0 else FromBigEndian(s[..|s| - 1]) * 256 + s[|s| - 1]
  }

  function Trailer(file: seq<Byte>): (t: seq<Byte>)
    ensures |t| == TRAILER_SIZE
  {
    BigEndian(Word(Sum(file)), TRAILER_SIZE)
  }

  /** The byte values added up, from the first to the last. */
  function ByteTotal(s: seq<Byte>): nat {
    if s == [] then 0 else s[0] + ByteTotal(s[1..])
  }

  /** How many bytes are 128 or more. */
  function HighBytes(s: seq<Byte>): nat {
    if s == [] then 0 else (if s[0] >= 128 then 1 else 0) + HighBytes(s[1..])
  }

  lemma {:induction false} SumIs(s: seq<Byte>)
    ensures Sum(s) == ByteTotal(s) - 256 * HighBytes(s)
  {
    if s != [] {
      SumIs(s[1..]);
      SumAppend([s[0]], s[1..]);
      assert [s[0]] + s[1..] == s;
      assert Sum([s[0]]) == Sum([]) + Signed(s[0]) by {
        SumSnoc([], s[0]);
        assert [] + [s[0]] == [s[0]];
      }
    }
  }

  /** The word for a file: its byte values, 256 less for each byte that C takes for negative, in 64 bits. */
  function FileWord(file: seq<Byte>): nat {
    (ByteTotal(file) - 256 * HighBytes(file)) % 0x1_0000_0000_0000_0000
  }

  /** Eight bytes that are the digits of w to the base 256, the highest first. */
  predicate EightDigits(t: seq<Byte>, w: nat) {
    |t| == 8 && forall i :: 0 <= i < 8 ==> t[i] == w / Pow256(7 - i) % 256
  }

  /** The trailer is that word, the highest byte first. */
  lemma TrailerIs(file: seq<Byte>)
    ensures EightDigits(Trailer(file), FileWord(file))
  {
    SumIs(file);
    WordDigits(FileWord(file));
    assert FileWord(file) == Word(Sum(file));
  }

  lemma WordDigits(w: nat)
    ensures EightDigits(BigEndian(w, 8), w)
  {
    var t := BigEndian(w, 8);
    forall i | 0 <= i < 8
      ensures t[i] == w / Pow256(7 - i) % 256
    {
      BigEndianDigit(w, 8, i);
    }
  }

  lemma {:induction false} BigEndianDigit(n: nat, k: nat, i: nat)
    requires i < k
    ensures BigEndian(n, k)[i] == n / Pow256(k - 1 - i) % 256
  {
    if i < k - 1 {
      BigEndianDigit(n / 256, k - 1, i);
      QuotientOfQuotient(n, Pow256(k - 2 - i));
    }
  }

  lemma QuotientOfQuotient(n: nat, p: nat)
    requires p >= 1
    ensures n / 256 / p == n / (256 * p)
  {
    var q, r := n / 256, n % 256;
    var q', r' := q / p, q % p;
    assert n == 256 * q + r && q == q' * p + r';
    assert q' * (256 * p) == 256 * (q' * p);
    DivModUnique(n, q', 256 * r' + r, 256 * p);
  }

  /** The meaning of the check: the last eight bytes are the word for the sum of the bytes before them. */
  predicate Accepts(stored: seq<Byte>)
    requires |stored| >= TRAILER_SIZE
  {
    var n := |stored| - TRAILER_SIZE;
    FromBigEndian(stored[n..]) == Word(Sum(stored[..n]))
  }

  // ---- the server

  /** Sizes that successive reads can return for n bytes and buffers of bs bytes. */
  predicate Splits(chunks: seq<nat>, n: nat, bs: nat) {
    if chunks == [] then n == 0
    else 1 <= chunks[0] <= bs && chunks[0] <= n && Splits(chunks[1..], n - chunks[0], bs)
  }

  /** The inner loop over a buffer, in 64-bit unsigned arithmetic. */
  method AddBytes(checkSum: nat, buf: seq<Byte>) returns (sum: nat)
    requires checkSum < WORD
    ensures sum == Word(checkSum + Sum(buf))
  {
    sum := checkSum;
    var x := 0;
    while x < |buf|
      invariant 0 <= x <= |buf|
      invariant sum == Word(checkSum + Sum(buf[..x]))
    {
      WordAdd(checkSum + Sum(buf[..x]), Signed(buf[x]));
      assert buf[..x + 1][..x] == buf[..x];
      sum := Word(sum + Signed(buf[x]));
      x := x + 1;
    }
    assert buf[..x] == buf;
  }

  /** The loop that reads, sums and writes block by block, then the trailer. */
  method SendFile(file: seq<Byte>, chunks: seq<nat>, bs: nat) returns (wire: seq<Byte>)
    requires Splits(chunks, |file|, bs)
    ensures wire == file + Trailer(file)
    ensures EightDigits(wire[|file|..], FileWord(file))
  {
    var checkSum := 0;
    wire := [];
    var i := 0;
    while i < |chunks|
      invariant 0 <= i <= |chunks|
      invariant |wire| <= |file| && wire == file[..|wire|]
      invariant Splits(chunks[i..], |file| - |wire|, bs)
      invariant checkSum == Word(Sum(wire))
    {
      assert chunks[i..][0] == chunks[i] && chunks[i..][1..] == chunks[i + 1..];
      var buf := file[|wire|..|wire| + chunks[i]];
      WordAdd(Sum(wire), Sum(buf));
      SumAppend(wire, buf);
      checkSum := AddBytes(checkSum, buf);
      wire := wire + buf;
      i := i + 1;
    }
    assert wire == file;
    wire := wire + BigEndian(checkSum, TRAILER_SIZE);
    TrailerIs(file);
    assert wire[|file|..] == Trailer(file);
  }

  // ---- the clients

  /** The receive loop: the first read decides whether there is a file, later ones append. */
  method ReceiveFile(wire: seq<Byte>, chunks: seq<nat>, bs: nat) returns (found: bool, stored: seq<Byte>)
    requires Splits(chunks, |wire|, bs)
    ensures found <==> wire != []
    ensures stored == wire
  {
    if chunks == [] {
      return false, [];
    }
    stored := wire[..chunks[0]];
    var i := 1;
    while i < |chunks|
      invariant 1 <= i <= |chunks|
      invariant |stored| <= |wire| && stored == wire[..|stored|]
      invariant Splits(chunks[i..], |wire| - |stored|, bs)
    {
      assert chunks[i..][0] == chunks[i] && chunks[i..][1..] == chunks[i + 1..];
      stored := stored + wire[|stored|..|stored| + chunks[i]];
      i := i + 1;
    }
    return true, stored;
  }

  /** The C validator: one pass over everything, minus the last eight bytes, against their big-endian value. */
  method ValidateC(stored: seq<Byte>) returns (verdict: int)
    requires |stored| >= TRAILER_SIZE
    ensures verdict == if Accepts(stored) then 1 else 0
    ensures verdict == 1 <==> EightDigits(stored[|stored| - 8..], FileWord(stored[..|stored| - 8]))
  {
    var checkSum := AddBytes(0, stored);
    var last8 := stored[|stored| - 8..];
    var a := 0;
    while a < 8
      invariant 0 <= a <= 8
      invariant checkSum == Word(Sum(stored) - Sum(last8[..a]))
    {
      WordAdd(Sum(stored) - Sum(last8[..a]), -Signed(last8[a]));
      assert last8[..a + 1][..a] == last8[..a];
      checkSum := Word(checkSum - Signed(last8[a]));
      a := a + 1;
    }
    assert last8[..8] == last8;
    SumAppend(stored[..|stored| - 8], last8);
    assert stored[..|stored| - 8] + last8 == stored;
    verdict := if FromBigEndian(last8) == checkSum then 1 else 0;
    AcceptsIsDigits(stored);
  }

  /** Bitwise or of non-negative numbers. */
  function BitOr(x: nat, y: nat): nat
    decreases x + y
  {
    if x == 0 then y else if y == 0 then x
    else 2 * BitOr(x / 2, y / 2) + if x % 2 == 1 || y % 2 == 1 then 1 else 0
  }

  function GetUnsigned(b: Byte): nat {
    var v := Signed(b);
    if v < 0 then v + 256 else v
  }

  /** `value <<= 8; value |= b` on a long. */
  function ShiftOr(value: int, b: Byte): int {
    Long(BitOr(Word(Long(value * 256)), GetUnsigned(b)))
  }

  /** One turn of a summing loop, in wrapping signed arithmetic. */
  lemma LongSumTurn(s: seq<Byte>, i: nat)
    requires i < |s|
    ensures Long(Long(Sum(s[..i])) + Signed(s[i])) == Long(Sum(s[..i + 1]))
  {
    LongAdd(Sum(s[..i]), Signed(s[i]));
    assert s[..i + 1] == s[..i] + [s[i]];
    SumSnoc(s[..i], s[i]);
  }

  /** One turn of the loop that shifts the last eight bytes in. */
  lemma ShiftOrTurn(s: seq<Byte>, a: nat)
    requires a < |s| <= TRAILER_SIZE
    ensures ShiftOr(Long(FromBigEndian(s[..a])), s[a]) == Long(FromBigEndian(s[..a + 1]))
  {
    ShiftOrAppends(s[..a], s[a]);
    assert s[..a + 1] == s[..a] + [s[a]];
  }

  /** The Java validator, in wrapping signed arithmetic. */
  method ValidateJava(stored: seq<Byte>) returns (verdict: bool)
    requires |stored| >= TRAILER_SIZE
    ensures verdict == Accepts(stored)
    ensures verdict <==> EightDigits(stored[|stored| - 8..], FileWord(stored[..|stored| - 8]))
  {
    var checkSum := 0;
    var i := 0;
    while i < |stored|
      invariant 0 <= i <= |stored|
      invariant checkSum == Long(Sum(stored[..i]))
    {
      LongSumTurn(stored, i);
      checkSum := Long(checkSum + Signed(stored[i]));
      i := i + 1;
    }
    assert stored[..i] == stored;
    var readByte := stored[|stored| - 8..];
    var last8, value := 0, 0;
    var a := 0;
    while a < 8
      invariant 0 <= a <= 8
      invariant last8 == Long(Sum(readByte[..a]))
      invariant value == Long(FromBigEndian(readByte[..a]))
    {
      LongSumTurn(readByte, a);
      ShiftOrTurn(readByte, a);
      last8 := Long(last8 + Signed(readByte[a]));
      value := ShiftOr(value, readByte[a]);
      a := a + 1;
    }
    assert readByte[..8] == readByte;
    checkSum := Long(checkSum - last8);
    LongsMeetIff(stored);
    AcceptsIsDigits(stored);
    verdict := value == checkSum;
  }

  /** Comparing the two longs is the check. */
  lemma LongsMeetIff(stored: seq<Byte>)
    requires |stored| >= TRAILER_SIZE
    ensures var last8 := stored[|stored| - 8..];
            Long(FromBigEndian(last8)) == Long(Long(Sum(stored)) - Long(Sum(last8))) <==> Accepts(stored)
  {
    var n := |stored| - 8;
    var last8 := stored[n..];
    SumAppend(stored[..n], last8);
    assert stored[..n] + last8 == stored;
    FromBigEndianBound(last8);
    SixtyFour();
    LongsMeet(FromBigEndian(last8), Sum(stored), Sum(last8), Sum(stored[..n]));
  }

  lemma LongsMeet(n: nat, whole: int, last: int, front: int)
    requires n < WORD && whole == front + last
    ensures Long(n) == Long(Long(whole) - Long(last)) <==> n == Word(front)
  {
    LongSub(whole, last);
    LongIsWord(n, front);
  }

  /** A download: any file, any sizes returned by the server's reads and by the client's. */
  method Download(file: seq<Byte>, serverReads: seq<nat>, clientReads: seq<nat>, bs: nat)
    returns (verdict: int, stored: seq<Byte>)
    requires Splits(serverReads, |file|, bs) && Splits(clientReads, |file| + TRAILER_SIZE, bs)
    ensures verdict == 1 && stored == file + Trailer(file)
  {
    var wire := SendFile(file, serverReads, bs);
    var found: bool;
    found, stored := ReceiveFile(wire, clientReads, bs);
    SentIsAccepted(file);
    verdict := ValidateC(stored);
  }

  // ---- proofs: modular sums

  lemma WordAdd(a: int, b: int)
    ensures Word(Word(a) + b) == Word(a + b)
  {
    var q := a / WORD;
    assert a == q * WORD + Word(a);
    WordShift(Word(a) + b, q);
  }

  lemma WordShift(x: int, q: int)
    ensures Word(x + q * WORD) == Word(x)
  {
  }

  lemma LongAdd(a: int, b: int)
    ensures Long(Long(a) + b) == Long(a + b)
  {
    WordAdd(a + HALF, b);
  }

  lemma LongSub(a: int, b: int)
    ensures Long(Long(a) - Long(b)) == Long(a - b)
  {
    LongAdd(a, -Long(b));
    WordAdd(a - b, 0);
    var q := (b + HALF) / WORD;
    assert b + HALF == q * WORD + Word(b + HALF);
    WordShift(a - b + HALF, q);
  }

  /** Equal longs are equal words. */
  lemma LongIsWord(n: nat, x: int)
    requires n < WORD
    ensures Long(n) == Long(x) <==> n == Word(x)
  {
    var q := x / WORD;
    assert x == q * WORD + Word(x);
    WordShift(Word(x) + HALF, q);
  }

  lemma SumSnoc(s: seq<Byte>, b: Byte)
    ensures Sum(s + [b]) == Sum(s) + Signed(b)
  {
    assert (s + [b])[..|s|] == s;
  }

  lemma {:induction false} SumAppend(a: seq<Byte>, b: seq<Byte>)
    ensures Sum(a + b) == Sum(a) + Sum(b)
  {
    if b == [] {
      assert a + b == a;
    } else {
      assert (a + b)[..|a + b| - 1] == a + b[..|b| - 1];
      SumAppend(a, b[..|b| - 1]);
    }
  }

  // ---- proofs: big-endian words

  function Pow256(k: nat): (p: nat)
    ensures p >= 1
  {
    if k == 0 then 1 else 256 * Pow256(k - 1)
  }

  lemma SixtyFour()
    ensures Pow256(TRAILER_SIZE) == WORD && Pow256(7) == WORD / 256
  {
    assert Pow256(2) == 0x1_0000;
    assert Pow256(4) == 0x1_0000_0000;
    assert Pow256(6) == 0x1_0000_0000_0000;
  }

  lemma {:induction false} FromBigEndianBound(s: seq<Byte>)
    ensures FromBigEndian(s) < Pow256(|s|)
  {
    if s != [] {
      FromBigEndianBound(s[..|s| - 1]);
    }
  }

  /** Writing k bytes and reading them back keeps every number that fits. */
  lemma {:induction false} BigEndianRoundTrip(n: nat, k: nat)
    requires n < Pow256(k)
    ensures FromBigEndian(BigEndian(n, k)) == n
  {
    if k > 0 {
      BigEndianRoundTrip(n / 256, k - 1);
      assert BigEndian(n, k)[..k - 1] == BigEndian(n / 256, k - 1);
    }
  }

  /** Reading bytes and writing the number again keeps the bytes, so different bytes give different numbers. */
  lemma {:induction false} BytesRoundTrip(s: seq<Byte>)
    ensures BigEndian(FromBigEndian(s), |s|) == s
  {
    if s != [] {
      BytesRoundTrip(s[..|s| - 1]);
      assert s[..|s| - 1] + [s[|s| - 1]] == s;
    }
  }

  function Pow2(k: nat): nat {
    if k == 0 then 1 else 2 * Pow2(k - 1)
  }

  /** Or-ing a byte into cleared low bits adds it. */
  lemma {:induction false} BitOrIsPlus(m: nat, b: nat, k: nat)
    requires b < Pow2(k)
    ensures BitOr(m * Pow2(k), b) == m * Pow2(k) + b
  {
    if k > 0 {
      var x := m * Pow2(k);
      assert x == 2 * (m * Pow2(k - 1));
      BitOrIsPlus(m, b / 2, k - 1);
    }
  }

  /** Shifting a long left by a byte and or-ing the next one in is appending a big-endian digit. */
  lemma ShiftOrAppends(s: seq<Byte>, b: Byte)
    requires |s| < TRAILER_SIZE
    ensures ShiftOr(Long(FromBigEndian(s)), b) == Long(FromBigEndian(s + [b]))
  {
    SevenBytesFit(s);
    FromBigEndianSnoc(s, b);
    ShiftOrOf(FromBigEndian(s), b, FromBigEndian(s + [b]));
  }

  lemma FromBigEndianSnoc(s: seq<Byte>, b: Byte)
    ensures FromBigEndian(s + [b]) == FromBigEndian(s) * 256 + b
  {
    assert (s + [b])[..|s|] == s;
  }

  lemma ShiftOrOf(d: nat, b: Byte, e: nat)
    requires d < WORD / 256 && e == d * 256 + b
    ensures ShiftOr(Long(d), b) == Long(e)
  {
    ShiftFits(d);
    OrFits(d, b);
  }

  lemma ShiftFits(d: nat)
    requires d < WORD / 256
    ensures Long(d) == d && Word(Long(d * 256)) == d * 256
  {
  }

  lemma OrFits(d: nat, b: Byte)
    ensures BitOr(d * 256, GetUnsigned(b)) == d * 256 + b
  {
    assert Pow2(8) == 256 by {
      assert Pow2(4) == 16;
    }
    BitOrIsPlus(d, b, 8);
  }

  lemma {:induction false} PowMonotone(a: nat, b: nat)
    requires a <= b
    ensures 1 <= Pow256(a) <= Pow256(b)
  {
    if a < b {
      PowMonotone(a, b - 1);
    } else if a > 0 {
      PowMonotone(a - 1, a - 1);
    }
  }

  lemma SevenBytesFit(s: seq<Byte>)
    requires |s| < TRAILER_SIZE
    ensures FromBigEndian(s) < WORD / 256
  {
    FromBigEndianBound(s);
    PowMonotone(|s|, 7);
    SixtyFour();
  }

  // ---- main results

  /** The check accepts a stored file exactly when its last eight bytes are the trailer of the rest. */
  lemma AcceptsIff(payload: seq<Byte>, trailer: seq<Byte>)
    requires |trailer| == TRAILER_SIZE
    ensures Accepts(payload + trailer) <==> trailer == Trailer(payload)
  {
    var stored := payload + trailer;
    assert stored[..|stored| - TRAILER_SIZE] == payload && stored[|stored| - TRAILER_SIZE..] == trailer;
    SixtyFour();
    BigEndianRoundTrip(Word(Sum(payload)), TRAILER_SIZE);
    BytesRoundTrip(trailer);
  }

  /** In terms of the bytes: the last eight are the digits of the word for those before them. */
  lemma AcceptsIsDigits(stored: seq<Byte>)
    requires |stored| >= TRAILER_SIZE
    ensures Accepts(stored) <==> EightDigits(stored[|stored| - 8..], FileWord(stored[..|stored| - 8]))
  {
    var payload, t := stored[..|stored| - 8], stored[|stored| - 8..];
    assert payload + t == stored;
    AcceptsIff(payload, t);
    TrailerIs(payload);
    if EightDigits(t, FileWord(payload)) {
      SameDigits(t, Trailer(payload), FileWord(payload));
    }
  }

  lemma SameDigits(s: seq<Byte>, t: seq<Byte>, w: nat)
    requires EightDigits(s, w) && EightDigits(t, w)
    ensures s == t
  {
  }

  /** What the server sends is accepted, for every file. */
  lemma SentIsAccepted(file: seq<Byte>)
    ensures Accepts(file + Trailer(file))
  {
    AcceptsIff(file, Trailer(file));
  }

  lemma SumUpdate(s: seq<Byte>, i: nat, b: Byte)
    requires i < |s|
    ensures Sum(s[i := b]) == Sum(s) + Signed(b) - Signed(s[i])
  {
    var pre, post := s[..i], s[i + 1..];
    assert s == (pre + [s[i]]) + post && s[i := b] == (pre + [b]) + post;
    SumAppend(pre + [s[i]], post);
    SumAppend(pre, [s[i]]);
    SumAppend(pre + [b], post);
    SumAppend(pre, [b]);
  }

  /** Detection: one changed byte anywhere in what was sent, file or trailer, is always noticed. */
  lemma OneChangedByteIsDetected(file: seq<Byte>, i: nat, b: Byte)
    requires i < |file| + TRAILER_SIZE && (file + Trailer(file))[i] != b
    ensures !Accepts((file + Trailer(file))[i := b])
  {
    var n := |file|;
    var t := Trailer(file);
    if i < n {
      assert (file + t)[i := b] == file[i := b] + t;
      AcceptsIff(file[i := b], t);
      if t == Trailer(file[i := b]) {
        SixtyFour();
        BigEndianRoundTrip(Word(Sum(file)), TRAILER_SIZE);
        BigEndianRoundTrip(Word(Sum(file[i := b])), TRAILER_SIZE);
        SumUpdate(file, i, b);
        SmallDifference(Sum(file), Signed(b) - Signed(file[i]));
        assert false;
      }
    } else {
      assert (file + t)[i := b] == file + t[i - n := b];
      AcceptsIff(file, t[i - n := b]);
      assert t[i - n := b][i - n] != t[i - n];
    }
  }

  lemma SmallDifference(x: int, d: int)
    requires d != 0 && -256 < d < 256
    ensures Word(x + d) != Word(x)
  {
    WordAdd(x, d);
  }

  /** The sum does not depend on the order of the bytes. */
  lemma {:induction false} SumOfPermutation(a: seq<Byte>, b: seq<Byte>)
    requires multiset(a) == multiset(b)
    ensures Sum(a) == Sum(b)
    decreases |a|
  {
    assert |a| == |multiset(a)| == |multiset(b)| == |b|;
    if a != [] {
      var n := |a| - 1;
      assert a[n] in multiset(b);
      var i :| 0 <= i < |b| && b[i] == a[n];
      var rest := b[..i] + b[i + 1..];
      assert b == (b[..i] + [b[i]]) + b[i + 1..];
      assert a == a[..n] + [a[n]];
      SumAppend(b[..i] + [b[i]], b[i + 1..]);
      SumAppend(b[..i], [b[i]]);
      SumAppend(b[..i], b[i + 1..]);
      assert multiset(rest) == multiset(b) - multiset{b[i]};
      assert multiset(a[..n]) == multiset(a) - multiset{a[n]};
      SumOfPermutation(a[..n], rest);
    }
  }

  /** The exact limit of the check: a payload passes with the trailer of another one exactly when the two sums are
      the same 64-bit word. */
  lemma PassesUnnoticedIff(file: seq<Byte>, other: seq<Byte>)
    ensures Accepts(other + Trailer(file)) <==> Word(Sum(other)) == Word(Sum(file))
  {
    AcceptsIff(other, Trailer(file));
    SixtyFour();
    BigEndianRoundTrip(Word(Sum(file)), TRAILER_SIZE);
    BigEndianRoundTrip(Word(Sum(other)), TRAILER_SIZE);
  }

  /** One instance: bytes of the file in another order pass unnoticed. */
  lemma ReorderingIsNotDetected(file: seq<Byte>, shuffled: seq<Byte>)
    requires multiset(file) == multiset(shuffled)
    ensures Accepts(shuffled + Trailer(file))
  {
    SumOfPermutation(file, shuffled);
    PassesUnnoticedIff(file, shuffled);
  }
}
