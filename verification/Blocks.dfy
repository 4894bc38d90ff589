/** How a file is cut into blocks: all of one size except the last, which takes what is
    left. Also the bookkeeping over a bitmap of received blocks. */
module Blocks {
  import opened Arithmetic

  /** Size of the client's bitmap. */
  const MAX_PACKETS: nat := 1000000

  datatype Config = Config(size: nat, bs: nat) {

    function Total(): nat
      requires bs >= 1
    {
      (size + bs - 1) / bs
    }

    /** What the program assumes of its inputs: a non-empty file, a positive block size, a bitmap that is large enough. */
    ghost predicate Valid() {
      size >= 1 && bs >= 1 && Total() <= MAX_PACKETS
    }

    /** Bytes carried by block j: a full block, or the rest of the file for the last one. */
    function BlockLen(j: nat): int
      requires bs >= 1
    {
      if j < Total() - 1 then bs else size - j * bs
    }

    /** Bytes covered by the first n blocks. */
    function Prefix(n: nat): nat
      requires bs >= 1
    {
      if n < Total() then n * bs else size
    }
  }

  lemma TotalBounds(cfg: Config)
    requires cfg.Valid()
    ensures cfg.Total() >= 1
    ensures (cfg.Total() - 1) * cfg.bs < cfg.size <= cfg.Total() * cfg.bs
  {
    var x := cfg.size + cfg.bs - 1;
    var q, r := x / cfg.bs, x % cfg.bs;
    assert x == q * cfg.bs + r;
    if q == 0 {
      assert false;
    }
    assert (q - 1) * cfg.bs == q * cfg.bs - cfg.bs;
  }

  /** Every block is non-empty, at most a block size long, ends where the next begins, and lies inside the file. */
  lemma BlockFits(cfg: Config, j: nat)
    requires cfg.Valid() && j < cfg.Total()
    ensures 1 <= cfg.BlockLen(j) <= cfg.bs
    ensures cfg.Prefix(j) == j * cfg.bs
    ensures cfg.Prefix(j) + cfg.BlockLen(j) == cfg.Prefix(j + 1) <= cfg.size
    ensures j * cfg.bs + cfg.bs <= cfg.Total() * cfg.bs
  {
    TotalBounds(cfg);
    assert (j + 1) * cfg.bs == j * cfg.bs + cfg.bs;
    MulMonotone(j + 1, cfg.Total(), cfg.bs);
    if j < cfg.Total() - 1 {
      MulMonotone(j + 1, cfg.Total() - 1, cfg.bs);
    }
    assert (cfg.Total() - 1) * cfg.bs == cfg.Total() * cfg.bs - cfg.bs;
  }

  lemma BlocksDisjoint(cfg: Config, i: nat, j: nat)
    requires cfg.Valid() && i < j < cfg.Total()
    ensures i * cfg.bs + cfg.BlockLen(i) <= j * cfg.bs
  {
    BlockFits(cfg, i);
    assert (i + 1) * cfg.bs == i * cfg.bs + cfg.bs;
    MulMonotone(i + 1, j, cfg.bs);
  }

  /** The bytes of block j in a file image. */
  function Block<T>(cfg: Config, image: seq<T>, j: nat): (b: seq<T>)
    requires cfg.Valid() && j < cfg.Total() && |image| >= cfg.size
    ensures |b| == cfg.BlockLen(j)
  {
    BlockFits(cfg, j);
    image[j * cfg.bs..j * cfg.bs + cfg.BlockLen(j)]
  }

  /** Two images of the file's size that agree on every block are equal. */
  lemma BlocksDetermine<T>(cfg: Config, a: seq<T>, b: seq<T>)
    requires cfg.Valid() && |a| == cfg.size && |b| == cfg.size
    requires forall j :: 0 <= j < cfg.Total() ==> Block(cfg, a, j) == Block(cfg, b, j)
    ensures a == b
  {
    PrefixesAgree(cfg, a, b, cfg.Total());
    assert a == a[..cfg.size] && b == b[..cfg.size];
  }

  lemma {:induction false} PrefixesAgree<T>(cfg: Config, a: seq<T>, b: seq<T>, n: nat)
    requires cfg.Valid() && |a| == cfg.size && |b| == cfg.size && n <= cfg.Total()
    requires forall j :: 0 <= j < n ==> Block(cfg, a, j) == Block(cfg, b, j)
    ensures cfg.Prefix(n) <= cfg.size
    ensures a[..cfg.Prefix(n)] == b[..cfg.Prefix(n)]
  {
    TotalBounds(cfg);
    if n > 0 {
      PrefixesAgree(cfg, a, b, n - 1);
      BlockFits(cfg, n - 1);
      var p := cfg.Prefix(n - 1);
      assert a[..cfg.Prefix(n)] == a[..p] + Block(cfg, a, n - 1);
      assert b[..cfg.Prefix(n)] == b[..p] + Block(cfg, b, n - 1);
    }
  }

  /** The image after data has been copied to offset off. */
  function Splice<T>(image: seq<T>, off: nat, data: seq<T>): (r: seq<T>)
    requires off + |data| <= |image|
    ensures |r| == |image|
  {
    image[..off] + data + image[off + |data|..]
  }

  /** Writing one block sets that block and leaves every other block alone. */
  lemma SpliceBlock<T>(cfg: Config, image: seq<T>, s: nat, data: seq<T>)
    requires cfg.Valid() && |image| == cfg.size && s < cfg.Total() && |data| == cfg.BlockLen(s)
    ensures s * cfg.bs + |data| <= cfg.size
    ensures Block(cfg, Splice(image, s * cfg.bs, data), s) == data
    ensures forall j :: 0 <= j < cfg.Total() && j != s ==>
              Block(cfg, Splice(image, s * cfg.bs, data), j) == Block(cfg, image, j)
  {
    BlockFits(cfg, s);
    var r := Splice(image, s * cfg.bs, data);
    forall j | 0 <= j < cfg.Total() && j != s
      ensures Block(cfg, r, j) == Block(cfg, image, j)
    {
      BlockFits(cfg, j);
      if j < s {
        BlocksDisjoint(cfg, j, s);
      } else {
        BlocksDisjoint(cfg, s, j);
      }
    }
  }

  // ---- the bitmap

  /** Bytes accounted for by the set bits below n. */
  function SumLen(cfg: Config, rcvd: seq<bool>, n: nat): int
    requires cfg.bs >= 1 && n <= |rcvd|
  {
    if n == 0 then 0 else SumLen(cfg, rcvd, n - 1) + if rcvd[n - 1] then cfg.BlockLen(n - 1) else 0
  }

  lemma {:induction false} SumLenSetBit(cfg: Config, rcvd: seq<bool>, s: nat, n: nat)
    requires cfg.bs >= 1 && n <= |rcvd| && s < |rcvd| && !rcvd[s]
    ensures SumLen(cfg, rcvd[s := true], n) == SumLen(cfg, rcvd, n) + if s < n then cfg.BlockLen(s) else 0
  {
    if n > 0 {
      SumLenSetBit(cfg, rcvd, s, n - 1);
    }
  }

  lemma {:induction false} SumLenClear(cfg: Config, rcvd: seq<bool>, n: nat)
    requires cfg.bs >= 1 && n <= |rcvd|
    requires forall j :: 0 <= j < n ==> !rcvd[j]
    ensures SumLen(cfg, rcvd, n) == 0
  {
    if n > 0 {
      SumLenClear(cfg, rcvd, n - 1);
    }
  }

  /** The count never exceeds what the blocks can hold, and reaches it exactly when every bit is set. */
  lemma {:induction false} SumLenBound(cfg: Config, rcvd: seq<bool>, n: nat)
    requires cfg.Valid() && n <= cfg.Total() <= |rcvd|
    ensures 0 <= SumLen(cfg, rcvd, n) <= cfg.Prefix(n)
    ensures SumLen(cfg, rcvd, n) == cfg.Prefix(n) <==> forall j :: 0 <= j < n ==> rcvd[j]
  {
    TotalBounds(cfg);
    if n > 0 {
      SumLenBound(cfg, rcvd, n - 1);
      BlockFits(cfg, n - 1);
    }
  }

  /** The numbers from j up to n whose bit is clear, ascending. */
  function ClearFrom(rcvd: seq<bool>, j: nat, n: nat): seq<nat>
    requires j <= n <= |rcvd|
    decreases n - j
  {
    if j == n then []
    else if rcvd[j] then ClearFrom(rcvd, j + 1, n)
    else [j] + ClearFrom(rcvd, j + 1, n)
  }

  /** The sequence numbers of the blocks that have not arrived. */
  function Missing(cfg: Config, rcvd: seq<bool>): seq<nat>
    requires cfg.bs >= 1 && cfg.Total() <= |rcvd|
  {
    ClearFrom(rcvd, 0, cfg.Total())
  }

  /** A number is on the list from j on exactly when it is at least j and its bit is clear. */
  lemma {:induction false} ClearMember(rcvd: seq<bool>, j: nat, n: nat, x: int)
    requires j <= n <= |rcvd|
    ensures x in ClearFrom(rcvd, j, n) <==> j <= x < n && !rcvd[x]
    decreases n - j
  {
    if j < n {
      ClearMember(rcvd, j + 1, n, x);
    }
  }

  ghost predicate Ascends(m: seq<nat>) {
    forall a, b :: 0 <= a < b < |m| ==> m[a] < m[b]
  }

  /** The list is strictly ascending. */
  lemma {:induction false} ClearAscends(rcvd: seq<bool>, j: nat, n: nat)
    requires j <= n <= |rcvd|
    ensures Ascends(ClearFrom(rcvd, j, n))
    decreases n - j
  {
    if j < n {
      ClearAscends(rcvd, j + 1, n);
      var rest := ClearFrom(rcvd, j + 1, n);
      if !rcvd[j] {
        forall i | 0 <= i < |rest|
          ensures j < rest[i]
        {
          ClearMember(rcvd, j + 1, n, rest[i]);
        }
      }
    }
  }

  lemma {:induction false} ClearLength(rcvd: seq<bool>, j: nat, n: nat)
    requires j <= n <= |rcvd|
    ensures |ClearFrom(rcvd, j, n)| <= n - j
    decreases n - j
  {
    if j < n {
      ClearLength(rcvd, j + 1, n);
    }
  }

  /** The list of all missing numbers: exactly the clear bits, each once, ascending. */
  lemma MissingIsExact(cfg: Config, rcvd: seq<bool>)
    requires cfg.bs >= 1 && cfg.Total() <= |rcvd|
    ensures forall x :: x in Missing(cfg, rcvd) <==> 0 <= x < cfg.Total() && !rcvd[x]
    ensures Ascends(Missing(cfg, rcvd))
  {
    forall x
      ensures x in Missing(cfg, rcvd) <==> 0 <= x < cfg.Total() && !rcvd[x]
    {
      ClearMember(rcvd, 0, cfg.Total(), x);
    }
    ClearAscends(rcvd, 0, cfg.Total());
  }

  /** Setting a clear bit makes the list exactly one shorter. */
  lemma {:induction false} ClearSetBit(rcvd: seq<bool>, s: nat, j: nat, n: nat)
    requires j <= n <= |rcvd| && s < n && !rcvd[s]
    ensures |ClearFrom(rcvd[s := true], j, n)| == |ClearFrom(rcvd, j, n)| - if j <= s then 1 else 0
    decreases n - j
  {
    if j < n {
      ClearSetBit(rcvd, s, j + 1, n);
    }
  }
}
