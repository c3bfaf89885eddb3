/** The block partitioning of section 9.1 of RFC 5052, and how its symbols tile an object. */
module Partitioning {
  import opened Arithmetic

  /** `symbols` source symbols in `blocks` blocks, the first `nLarge` of them of length `large`. */
  datatype Partition = Partition(symbols: nat, blocks: nat, large: nat, small: nat, nLarge: nat) {

    function BlockLength(k: nat): nat {
      if k < nLarge then large else small
    }

    /** The number of symbols in the blocks before block `k`. */
    function BlockStart(k: nat): nat {
      k * small + Min(k, nLarge)
    }

    /** The position of symbol `j` of block `k` among all symbols of the object. */
    function Index(k: nat, j: nat): nat {
      BlockStart(k) + j
    }

    /** Symbol `j` of block `k` exists. */
    predicate Has(k: nat, j: nat) {
      k < blocks && j < BlockLength(k)
    }
  }

  /** An object of `length` bytes cut into symbols of `e` bytes and blocks of at most `b` symbols. */
  function PartitionOf(length: nat, e: nat, b: nat): Partition
    requires e > 0 && b > 0
  {
    var t := CeilDiv(length, e);
    var n := CeilDiv(t, b);
    if n == 0 then Partition(0, 0, 0, 0, 0)
    else Partition(t, n, CeilDiv(t, n), t / n, t % n)
  }

  /** What section 9.1 of RFC 5052 asks of a partition of `t` symbols into blocks of at most `b`. */
  ghost predicate IsRfc5052Partition(p: Partition, t: nat, b: nat) {
    && p.symbols == t > 0
    // the fewest blocks that keep every block within b symbols
    && (p.blocks - 1) * b < t <= p.blocks * b
    // the larger blocks come first, differ from the smaller ones by at most one symbol, and none is empty
    && p.nLarge < p.blocks
    && 1 <= p.small <= p.large <= b
    && p.large == (if p.nLarge > 0 then p.small + 1 else p.small)
    // no symbol is left over
    && p.nLarge * p.large + (p.blocks - p.nLarge) * p.small == t
  }

  lemma PartitionMeetsRfc5052(length: nat, e: nat, b: nat)
    requires length > 0 && e > 0 && b > 0
    ensures IsRfc5052Partition(PartitionOf(length, e, b), CeilDiv(length, e), b)
  {
    var p := PartitionOf(length, e, b);
    var t := CeilDiv(length, e);
    CeilDivBounds(length, e);
    CeilDivBounds(t, b);
    DivMod(t, p.blocks);
    BlocksNotEmpty(t, b, p.blocks);
    BlockLengths(t, p.blocks, p.small, p.nLarge, p.large, b);
    LengthsAddUp(p, t);
  }

  lemma DivMod(a: nat, b: nat)
    requires b > 0
    ensures a == b * (a / b) + a % b && a % b < b
  {
  }

  /** With the fewest blocks, there are no more blocks than symbols. */
  lemma BlocksNotEmpty(t: nat, b: nat, n: nat)
    requires b > 0 && 0 < n && b * (n - 1) < t
    ensures n <= t
  {
    MulMonotone(n - 1, 1, b);
  }

  lemma BlockLengths(t: nat, n: nat, small: nat, nLarge: nat, large: nat, b: nat)
    requires 0 < n <= t <= b * n && t == n * small + nLarge && nLarge < n
    requires large == CeilDiv(t, n)
    ensures 1 <= small <= large <= b
    ensures large == if nLarge > 0 then small + 1 else small
  {
    assert small == 0 ==> n * small == 0;
    assert n * (small + 1) == n * small + n;
    assert n * (small - 1) == n * small - n;
    CeilDivUnique(t, n, if nLarge > 0 then small + 1 else small);
    if large > b {
      assert n * (large - 1) < t by { CeilDivBounds(t, n); }
      MulMonotone(n, b, large - 1);
    }
  }

  lemma LengthsAddUp(p: Partition, t: nat)
    requires t == p.blocks * p.small + p.nLarge && p.nLarge <= p.blocks
    requires p.large == (if p.nLarge > 0 then p.small + 1 else p.small)
    ensures p.nLarge * p.large + (p.blocks - p.nLarge) * p.small == t
  {
    assert p.nLarge * (p.small + 1) == p.nLarge * p.small + p.nLarge;
    assert (p.blocks - p.nLarge) * p.small == p.blocks * p.small - p.nLarge * p.small;
  }

  /** There is exactly one partition of the kind section 9.1 of RFC 5052 describes. */
  lemma Rfc5052PartitionIsUnique(p: Partition, q: Partition, t: nat, b: nat)
    requires IsRfc5052Partition(p, t, b) && IsRfc5052Partition(q, t, b)
    ensures p == q
  {
    BlocksAreCeiling(p, t, b);
    BlocksAreCeiling(q, t, b);
    SmallIsQuotient(p, t, b);
    SmallIsQuotient(q, t, b);
  }

  lemma BlocksAreCeiling(p: Partition, t: nat, b: nat)
    requires IsRfc5052Partition(p, t, b)
    ensures p.blocks == CeilDiv(t, b)
  {
    CeilDivUnique(t, b, p.blocks);
  }

  lemma SmallIsQuotient(p: Partition, t: nat, b: nat)
    requires IsRfc5052Partition(p, t, b)
    ensures t == p.blocks * p.small + p.nLarge
    ensures p.small == t / p.blocks && p.nLarge == t % p.blocks
  {
    LengthsAddUp(p, p.blocks * p.small + p.nLarge);
    DivUnique(t, p.blocks, p.small);
    DivMod(t, p.blocks);
  }

  // ---------------------------------------------------------------------------------------------
  // Positions
  // ---------------------------------------------------------------------------------------------

  lemma BlockStartNext(p: Partition, k: nat)
    requires p.large == (if p.nLarge > 0 then p.small + 1 else p.small)
    ensures p.BlockStart(k + 1) == p.BlockStart(k) + p.BlockLength(k)
  {
    assert (k + 1) * p.small == k * p.small + p.small;
  }

  lemma {:induction false} BlockStartMonotone(p: Partition, k: nat, m: nat)
    requires p.large == (if p.nLarge > 0 then p.small + 1 else p.small)
    requires k <= m
    ensures p.BlockStart(k) <= p.BlockStart(m)
  {
    MulMonotone(p.small, k, m);
  }

  lemma StartOfEnd(p: Partition, t: nat, b: nat)
    requires IsRfc5052Partition(p, t, b)
    ensures p.BlockStart(p.blocks) == t
  {
    SmallIsQuotient(p, t, b);
  }

  /** Every existing symbol has a position below the symbol count. */
  lemma IndexInRange(p: Partition, t: nat, b: nat, k: nat, j: nat)
    requires IsRfc5052Partition(p, t, b) && p.Has(k, j)
    ensures p.Index(k, j) < t
  {
    BlockStartNext(p, k);
    BlockStartMonotone(p, k + 1, p.blocks);
    StartOfEnd(p, t, b);
  }

  /** Positions follow the order of (block, symbol), so no two symbols share one. */
  lemma IndexOrdered(p: Partition, k: nat, j: nat, k': nat, j': nat)
    requires p.large == (if p.nLarge > 0 then p.small + 1 else p.small)
    requires j < p.BlockLength(k) && j' < p.BlockLength(k')
    ensures p.Index(k, j) < p.Index(k', j') <==> k < k' || (k == k' && j < j')
    ensures p.Index(k, j) == p.Index(k', j') ==> k == k' && j == j'
  {
    if k < k' {
      BlockStartNext(p, k);
      BlockStartMonotone(p, k + 1, k');
    } else if k' < k {
      BlockStartNext(p, k');
      BlockStartMonotone(p, k' + 1, k);
    }
  }

  /** The symbol at position `t`. */
  function Locate(p: Partition, t: nat): (nat, nat)
    requires p.small > 0
  {
    if t < p.nLarge * (p.small + 1) then (t / (p.small + 1), t % (p.small + 1))
    else var u := t - p.nLarge * (p.small + 1); (p.nLarge + u / p.small, u % p.small)
  }

  /** Every position below the symbol count is the position of an existing symbol. */
  lemma LocateFinds(p: Partition, t: nat, b: nat, i: nat)
    requires IsRfc5052Partition(p, t, b) && i < t
    ensures var (k, j) := Locate(p, i); p.Has(k, j) && p.Index(k, j) == i
  {
    LocatePosition(p, i);
    var (k, j) := Locate(p, i);
    PositionedBlockExists(p, t, b, k, j);
  }

  lemma LocatePosition(p: Partition, i: nat)
    requires p.small > 0 && p.large == (if p.nLarge > 0 then p.small + 1 else p.small)
    ensures var (k, j) := Locate(p, i); j < p.BlockLength(k) && p.Index(k, j) == i
  {
    var s, m := p.small, p.nLarge * (p.small + 1);
    if i < m {
      DivMod(i, s + 1);
      LocatedInLarge(p.nLarge, s, i / (s + 1), i % (s + 1), i);
    } else {
      DivMod(i - m, s);
      LocatedInSmall(p.nLarge, s, (i - m) / s, (i - m) % s, i);
    }
  }

  lemma LocatedInLarge(nLarge: nat, s: nat, k: nat, j: nat, i: nat)
    requires i == (s + 1) * k + j && i < nLarge * (s + 1)
    ensures k < nLarge && i == k * s + k + j
  {
    if k >= nLarge {
      MulMonotone(s + 1, nLarge, k);
    }
  }

  lemma LocatedInSmall(nLarge: nat, s: nat, m: nat, j: nat, i: nat)
    requires i == nLarge * (s + 1) + (s * m + j)
    ensures i == (nLarge + m) * s + nLarge + j
  {
  }

  lemma PositionedBlockExists(p: Partition, t: nat, b: nat, k: nat, j: nat)
    requires IsRfc5052Partition(p, t, b) && p.Index(k, j) < t
    ensures k < p.blocks
  {
    if k >= p.blocks {
      BlockStartMonotone(p, p.blocks, k);
      StartOfEnd(p, t, b);
    }
  }

  // ---------------------------------------------------------------------------------------------
  // Bytes
  // ---------------------------------------------------------------------------------------------

  /** The first byte of the symbol at position `t`. */
  function Offset(e: nat, t: nat): nat {
    e * t
  }

  /** The number of bytes of the symbol at position `t` in an object of `length` bytes. */
  function SymbolLength(length: nat, e: nat, t: nat): int {
    Min(length - Offset(e, t), e)
  }

  /** Every symbol is a non-empty stretch of the object, and only the last may be short. */
  lemma SymbolFits(length: nat, e: nat, t: nat)
    requires length > 0 && e > 0 && t < CeilDiv(length, e)
    ensures 0 < SymbolLength(length, e, t) <= e
    ensures Offset(e, t) + SymbolLength(length, e, t) <= length
    ensures t + 1 < CeilDiv(length, e) ==> SymbolLength(length, e, t) == e
    ensures t + 1 == CeilDiv(length, e) ==> Offset(e, t) + SymbolLength(length, e, t) == length
  {
    var n := CeilDiv(length, e);
    CeilDivBounds(length, e);
    MulMonotone(e, t, n - 1);
    assert e * (t + 1) == e * t + e;
    if t + 1 < n {
      MulMonotone(e, t + 1, n - 1);
    }
  }

  /** A position lies inside the object exactly when it is below the symbol count. */
  lemma PositionInside(length: nat, e: nat, t: nat)
    requires e > 0
    ensures Offset(e, t) < length <==> t < CeilDiv(length, e)
  {
    CeilDivBounds(length, e);
    if t < CeilDiv(length, e) {
      MulMonotone(e, t, CeilDiv(length, e) - 1);
    } else {
      MulMonotone(e, CeilDiv(length, e), t);
    }
  }

  /** A block starts inside the object exactly when it is one of its blocks. */
  lemma BlockStartsInside(length: nat, e: nat, b: nat, k: nat)
    requires length > 0 && e > 0 && b > 0
    ensures var p := PartitionOf(length, e, b);
      Offset(e, p.BlockStart(k)) < length <==> k < p.blocks
  {
    var p := PartitionOf(length, e, b);
    PartitionMeetsRfc5052(length, e, b);
    PositionInside(length, e, p.BlockStart(k));
    if k < p.blocks {
      IndexInRange(p, CeilDiv(length, e), b, k, 0);
    } else {
      StartOfEnd(p, CeilDiv(length, e), b);
      BlockStartMonotone(p, p.blocks, k);
    }
  }

  /** Symbols at different positions share no byte. */
  lemma SymbolsDisjoint(e: nat, t: nat, u: nat)
    requires t < u
    ensures Offset(e, t) + e <= Offset(e, u)
  {
    MulMonotone(e, t + 1, u);
    assert e * (t + 1) == e * t + e;
  }

  /** Every byte of the object lies in the symbol at position `i / e`. */
  lemma ByteInSymbol(length: nat, e: nat, i: nat)
    requires i < length && e > 0
    ensures i / e < CeilDiv(length, e)
    ensures Offset(e, i / e) <= i < Offset(e, i / e) + SymbolLength(length, e, i / e)
  {
    var t := i / e;
    assert i == e * t + i % e;
    CeilDivBounds(length, e);
    if t >= CeilDiv(length, e) {
      MulMonotone(e, CeilDiv(length, e), t);
    }
  }

  /** The symbols of an object tile it: each byte lies in exactly one of them. */
  lemma SymbolsTileObject(length: nat, e: nat, b: nat, i: nat)
    requires i < length && e > 0 && b > 0
    ensures var p := PartitionOf(length, e, b);
      exists k, j :: p.Has(k, j) && InSymbol(p, length, e, k, j, i) &&
                     forall k', j' :: p.Has(k', j') && InSymbol(p, length, e, k', j', i) ==> k' == k && j' == j
  {
    var p := PartitionOf(length, e, b);
    var t := CeilDiv(length, e);
    PartitionMeetsRfc5052(length, e, b);
    ByteInSymbol(length, e, i);
    LocateFinds(p, t, b, i / e);
    var (k, j) := Locate(p, i / e);
    assert p.Has(k, j) && InSymbol(p, length, e, k, j, i);
    forall k', j' | p.Has(k', j') && InSymbol(p, length, e, k', j', i)
      ensures k' == k && j' == j
    {
      var u := p.Index(k', j');
      if u < i / e {
        SymbolsDisjoint(e, u, i / e);
      } else if i / e < u {
        SymbolsDisjoint(e, i / e, u);
      }
      IndexOrdered(p, k, j, k', j');
    }
  }

  ghost predicate InSymbol(p: Partition, length: nat, e: nat, k: nat, j: nat, i: nat) {
    var t := p.Index(k, j);
    Offset(e, t) <= i < Offset(e, t) + SymbolLength(length, e, t)
  }
}
