/** Distributed arrays (MPI-3.1, section 4.1.4): which elements of a global
    array belong to a process, and the datatype that selects them. */
module Darrays {
  import opened Arithmetic
  import opened TypeMaps
  import opened Grid

  datatype Distribution = Block | Cyclic | NotDistributed

  datatype Dim = Dim(size: nat, distribution: Distribution, darg: int, procs: nat)

  const DFLT_DARG := -1

  /** A legal dimension: positive sizes, and a distribution argument that is
      the default or positive if it is used, and for block large enough to cover
      the array. */
  predicate LegalDim(d: Dim) {
    && d.size >= 1 && d.procs >= 1
    && (d.distribution.NotDistributed? || d.darg == DFLT_DARG || d.darg >= 1)
    && (d.distribution.Block? && d.darg != DFLT_DARG ==> d.darg * d.procs >= d.size)
  }

  predicate LegalDims(dims: seq<Dim>) {
    forall d :: d in dims ==> LegalDim(d)
  }

  function CeilDiv(a: nat, b: nat): nat
    requires b > 0
  {
    (a + b - 1) / b
  }

  function BlockSize(size: nat, procs: nat, darg: int): nat
    requires procs > 0 && (darg == DFLT_DARG || darg >= 1)
  {
    if darg == DFLT_DARG then CeilDiv(size, procs) else darg
  }

  function CycleSize(darg: int): (b: nat)
    requires darg == DFLT_DARG || darg >= 1
    ensures b > 0
  {
    if darg == DFLT_DARG then 1 else darg
  }

  /** Does grid coordinate c hold index x of dimension d?  An undistributed
      dimension over several processes is not legal MPI; the code then blocks
      it in row-major order and replicates it in column-major order. */
  predicate Owns(order: Order, d: Dim, c: int, x: int)
    requires LegalDim(d)
  {
    match d.distribution
    case Block =>
      BlockSizePositive(d.size, d.procs, d.darg);
      x / BlockSize(d.size, d.procs, d.darg) == c
    case Cyclic => (x / CycleSize(d.darg)) % d.procs == c
    case NotDistributed =>
      BlockSizePositive(d.size, d.procs, DFLT_DARG);
      order.ColumnMajor? || x / BlockSize(d.size, d.procs, DFLT_DARG) == c
  }

  lemma BlockSizePositive(size: nat, procs: nat, darg: int)
    requires procs > 0 && size > 0 && (darg == DFLT_DARG || darg >= 1)
    ensures BlockSize(size, procs, darg) > 0
    ensures darg == DFLT_DARG ==> BlockSize(size, procs, darg) * procs >= size
  {
    var q := CeilDiv(size, procs);
    assert size + procs - 1 == q * procs + (size + procs - 1) % procs;
  }

  /** The indices below n that coordinate c holds, in increasing order. */
  function OwnedBelow(order: Order, d: Dim, c: int, n: nat): seq<int>
    requires LegalDim(d)
  {
    if n == 0 then [] else OwnedBelow(order, d, c, n - 1) + (if Owns(order, d, c, n - 1) then [n - 1] else [])
  }

  function Owned(order: Order, d: Dim, c: int): seq<int>
    requires LegalDim(d)
  {
    OwnedBelow(order, d, c, d.size)
  }

  lemma {:induction false} OwnedExact(order: Order, d: Dim, c: int, n: nat)
    requires LegalDim(d)
    ensures Increasing(OwnedBelow(order, d, c, n)) && Within(OwnedBelow(order, d, c, n), n)
    ensures forall x :: x in OwnedBelow(order, d, c, n) <==> 0 <= x < n && Owns(order, d, c, x)
  {
    if n > 0 { OwnedExact(order, d, c, n - 1); }
  }

  // ----- what a coordinate holds, in the terms of the standard -----

  /** The default block is the least one with which the processes cover the dimension. */
  lemma LeastCover(size: nat, procs: nat)
    requires size > 0 && procs > 0
    ensures (BlockSize(size, procs, DFLT_DARG) - 1) * procs < size <= BlockSize(size, procs, DFLT_DARG) * procs
  {
    var b := BlockSize(size, procs, DFLT_DARG);
    assert size + procs - 1 == b * procs + (size + procs - 1) % procs;
    assert (b - 1) * procs == b * procs - procs;
  }

  lemma {:induction false} CoverUnique(size: nat, procs: nat, a: int, b: int)
    requires procs > 0 && (a - 1) * procs < size <= a * procs && (b - 1) * procs < size <= b * procs
    ensures a == b
  {
    if a < b { MulMonotone(a, b - 1, procs); }
    if b < a { MulMonotone(b, a - 1, procs); }
  }

  predicate InRound(x: int, round: int, procs: nat, c: int, block: int) {
    (round * procs + c) * block <= x < (round * procs + c) * block + block
  }

  lemma TurnOfRound(x: nat, procs: nat, c: nat, block: nat, round: nat)
    requires block > 0 && c < procs && InRound(x, round, procs, c, block)
    ensures (x / block) % procs == c
  {
    assert block * (round * procs + c) == (round * procs + c) * block;
    InBlock(x, block, round * procs + c);
    DivModUnique(round * procs + c, procs, round, c);
  }

  lemma RoundOfTurn(x: nat, procs: nat, block: nat)
    requires block > 0 && procs > 0
    ensures InRound(x, (x / block) / procs, procs, (x / block) % procs, block)
  {
    var turn := x / block;
    assert turn == (turn / procs) * procs + turn % procs;
    InBlock(x, block, turn);
    assert block * turn == turn * block;
  }

  /** Cyclic: whole blocks are dealt out in turn. */
  lemma DealtInTurn(x: nat, procs: nat, c: nat, block: nat)
    requires block > 0 && c < procs
    ensures (x / block) % procs == c <==> exists round: nat :: InRound(x, round, procs, c, block)
  {
    RoundOfTurn(x, procs, block);
    if round: nat :| InRound(x, round, procs, c, block) { TurnOfRound(x, procs, c, block, round); }
  }

  /** Section 4.1.4 of MPI-3.1, for a given argument and for the default one; b is
      the least block that covers the dimension. */
  ghost predicate Share(order: Order, d: Dim, c: nat, x: nat, b: nat) {
    match d.distribution
    case Block => if d.darg == DFLT_DARG then c * b <= x < c * b + b else c * d.darg <= x < c * d.darg + d.darg
    case Cyclic => if d.darg == DFLT_DARG then d.procs > 0 && x % d.procs == c
                   else exists round: nat :: InRound(x, round, d.procs, c, d.darg)
    case NotDistributed => order.ColumnMajor? || c * b <= x < c * b + b
  }

  lemma OwnsShare(order: Order, d: Dim, c: nat, x: nat, b: nat)
    requires LegalDim(d) && c < d.procs && b > 0 && b == BlockSize(d.size, d.procs, DFLT_DARG)
    ensures Owns(order, d, c, x) <==> Share(order, d, c, x, b)
  {
    var block: nat := if d.darg >= 1 then d.darg else 1;
    InBlock(x, block, c);
    InBlock(x, b, c);
    assert block * c == c * block && b * c == c * b && x / 1 == x;
    DealtInTurn(x, d.procs, c, block);
  }

  lemma OwnsExact(order: Order, d: Dim, c: nat, x: nat, b: nat)
    requires LegalDim(d) && c < d.procs && x < d.size && (b - 1) * d.procs < d.size <= b * d.procs
    ensures x in Owned(order, d, c) <==> Share(order, d, c, x, b)
  {
    OwnedExact(order, d, c, d.size);
    LeastCover(d.size, d.procs);
    CoverUnique(d.size, d.procs, b, BlockSize(d.size, d.procs, DFLT_DARG));
    hide BlockSize, Owns, Share, OwnedBelow;
    OwnsShare(order, d, c, x, b);
  }

  // ----- increasing sequences are determined by their elements -----

  lemma {:induction false} SameElements(a: seq<int>, b: seq<int>)
    requires Increasing(a) && Increasing(b) && forall x :: x in a <==> x in b
    ensures a == b
    decreases |a|
  {
    if b != [] { assert b[|b| - 1] in b; }
    if a != [] {
      assert a[0] in a;
      var m, n := |a| - 1, |b| - 1;
      assert a[m] in a && b[n] in b;
      assert a[m] == b[n];
      LastRemoved(a);
      LastRemoved(b);
      forall x ensures x in a[..m] <==> x in b[..n] {
        assert x in a <==> x in b;
      }
      SameElements(a[..m], b[..n]);
      assert a == a[..m] + [a[m]] && b == b[..n] + [b[n]];
    }
  }

  lemma LastRemoved(a: seq<int>)
    requires Increasing(a) && a != []
    ensures forall x :: x in a[..|a| - 1] <==> x in a && x != a[|a| - 1]
  {}

  // ----- the block distribution -----

  function BlockCount(size: nat, blockSize: nat, rank: int): nat {
    var j := size - blockSize * rank;
    var mine := if blockSize < j then blockSize else j;
    if mine < 0 then 0 else mine
  }

  function BlockStart(size: nat, blockSize: nat, rank: int): int {
    if BlockCount(size, blockSize, rank) == 0 then 0 else blockSize * rank
  }

  lemma InBlock(x: int, b: nat, c: int)
    requires b > 0
    ensures x / b == c <==> b * c <= x < b * c + b
  {
    assert x == (x / b) * b + x % b;
    if b * c <= x < b * c + b { DivModUnique(x, b, c, x - b * c); }
  }

  function BlockPicks(size: nat, blockSize: nat, rank: int): seq<int> {
    OffsetBy(Run(BlockCount(size, blockSize, rank)), BlockStart(size, blockSize, rank))
  }

  lemma BlockMember(size: nat, blockSize: nat, rank: nat, x: int)
    requires blockSize > 0
    ensures x in BlockPicks(size, blockSize, rank) <==> 0 <= x < size && x / blockSize == rank
  {
    assert blockSize * rank >= 0;
    InBlock(x, blockSize, rank);
    if 0 <= x < size && x / blockSize == rank {
      assert BlockPicks(size, blockSize, rank)[x - blockSize * rank] == x;
    }
  }

  lemma BlockOwned(order: Order, d: Dim, c: nat, blockSize: nat)
    requires LegalDim(d) && blockSize > 0
    requires forall x :: 0 <= x < d.size ==> (Owns(order, d, c, x) <==> x / blockSize == c)
    ensures BlockPicks(d.size, blockSize, c) == Owned(order, d, c)
  {
    OwnedExact(order, d, c, d.size);
    forall x ensures x in BlockPicks(d.size, blockSize, c) <==> x in Owned(order, d, c) {
      BlockMember(d.size, blockSize, c, x);
    }
    SameElements(BlockPicks(d.size, blockSize, c), Owned(order, d, c));
  }

  // ----- the cyclic distribution -----

  /** How many whole blocks a rank holds, and how many indices of a last partial one. */
  function CyclicLocal(size: nat, blockSize: nat, procs: nat, rank: nat): nat
    requires blockSize > 0 && procs > 0
  {
    var first, last := rank * blockSize, size - 1;
    if last < first then 0
    else
      CycleLength(procs, blockSize);
      var rem := (last - first + 1) % (procs * blockSize);
      ((last - first + 1) / (procs * blockSize)) * blockSize + (if rem < blockSize then rem else blockSize)
  }

  lemma CycleLength(procs: nat, blockSize: nat)
    requires procs > 0 && blockSize > 0
    ensures procs * blockSize >= blockSize > 0
  {}

  /** The indices held, counted from the first: `count` blocks a cycle apart,
      then `rem` indices of one more. */
  function CyclicRuns(blockSize: nat, cycle: nat, count: nat, rem: nat): seq<int> {
    Spread(Run(blockSize), Run(count), cycle) + OffsetBy(Run(rem), count * cycle)
  }

  lemma RunOrdered(count: nat, bound: nat)
    requires count <= bound
    ensures Increasing(Run(count)) && Within(Run(count), bound)
  {}

  lemma CyclicRunsOrdered(blockSize: nat, cycle: nat, count: nat, rem: nat)
    requires 0 < blockSize <= cycle && rem <= blockSize
    ensures Increasing(CyclicRuns(blockSize, cycle, count, rem))
  {
    RunOrdered(blockSize, cycle);
    RunOrdered(count, count);
    SpreadOrdered(Run(blockSize), Run(count), cycle);
    SpreadBelow(Run(blockSize), Run(count), cycle, count);
    IncreasingConcat(Spread(Run(blockSize), Run(count), cycle), OffsetBy(Run(rem), count * cycle), count * cycle);
  }

  /** Membership in `CyclicRuns`, read off quotient and remainder by the cycle. */
  predicate InRuns(blockSize: nat, cycle: nat, count: nat, rem: nat, y: int)
    requires cycle > 0
  {
    0 <= y && ((y / cycle < count && y % cycle < blockSize) || (y / cycle == count && y % cycle < rem))
  }

  lemma CyclicRunsExact(blockSize: nat, cycle: nat, count: nat, rem: nat, y: int)
    requires 0 < blockSize <= cycle && rem <= blockSize
    ensures y in CyclicRuns(blockSize, cycle, count, rem) <==> InRuns(blockSize, cycle, count, rem, y)
  {
    RunOrdered(blockSize, cycle);
    SpreadMember(Run(blockSize), Run(count), cycle, y);
    InRun(count, y / cycle);
    InRun(blockSize, y % cycle);
    InTail(count, cycle, rem, y);
    NonNegativeQuotient(y, cycle);
  }

  lemma NonNegativeQuotient(y: int, cycle: nat)
    requires cycle > 0
    ensures 0 <= y <==> 0 <= y / cycle
  {}

  lemma InRun(count: nat, x: int)
    ensures x in Run(count) <==> 0 <= x < count
  {
    if 0 <= x < count { assert Run(count)[x] == x; }
  }

  lemma InTail(count: nat, cycle: nat, rem: nat, y: int)
    requires 0 < rem <= cycle || (rem == 0 && cycle > 0)
    ensures y in OffsetBy(Run(rem), count * cycle) <==> y / cycle == count && y % cycle < rem
  {
    assert y == (y / cycle) * cycle + y % cycle;
    var tail := OffsetBy(Run(rem), count * cycle);
    if y in tail {
      DivModUnique(y, cycle, count, y - count * cycle);
    }
    if y / cycle == count && y % cycle < rem {
      assert tail[y % cycle] == y;
    }
  }

  /** Membership in rank's share of a cyclic dimension, counted from its first index. */
  predicate InShare(x: nat, blockSize: nat, procs: nat, rank: nat)
    requires blockSize > 0 && procs > 0
  {
    CycleLength(procs, blockSize);
    x >= rank * blockSize && (x - rank * blockSize) % (procs * blockSize) < blockSize
  }

  lemma ShareOfOwner(x: nat, blockSize: nat, procs: nat)
    requires blockSize > 0 && procs > 0
    ensures InShare(x, blockSize, procs, (x / blockSize) % procs)
  {
    CycleLength(procs, blockSize);
    var block, j := x / blockSize, x % blockSize;
    var q, rank := block / procs, block % procs;
    SplitOwner(x, blockSize, procs, block, q, rank, j);
    DivModUnique(x - rank * blockSize, procs * blockSize, q, j);
  }

  lemma SplitOwner(x: nat, blockSize: nat, procs: nat, block: nat, q: nat, rank: nat, j: nat)
    requires x == block * blockSize + j && block == q * procs + rank
    ensures x - rank * blockSize == q * (procs * blockSize) + j >= 0
  {
    RegroupCycle(q, procs, rank, blockSize);
  }

  lemma OwnerOfShare(x: nat, blockSize: nat, procs: nat, rank: nat)
    requires blockSize > 0 && rank < procs && InShare(x, blockSize, procs, rank)
    ensures (x / blockSize) % procs == rank
  {
    CycleLength(procs, blockSize);
    var cycle := procs * blockSize;
    var y := x - rank * blockSize;
    var q, r := y / cycle, y % cycle;
    assert y == q * cycle + r;
    RegroupCycle(q, procs, rank, blockSize);
    DivModUnique(x, blockSize, q * procs + rank, r);
    DivModUnique(x / blockSize, procs, q, rank);
  }

  lemma CyclicShare(x: nat, blockSize: nat, procs: nat, rank: nat)
    requires blockSize > 0 && rank < procs
    ensures (x / blockSize) % procs == rank <==> InShare(x, blockSize, procs, rank)
  {
    ShareOfOwner(x, blockSize, procs);
    if InShare(x, blockSize, procs, rank) { OwnerOfShare(x, blockSize, procs, rank); }
  }

  lemma RegroupCycle(q: nat, procs: nat, rank: nat, blockSize: nat)
    ensures (q * procs + rank) * blockSize == q * (procs * blockSize) + rank * blockSize
  {
    assert q * (procs * blockSize) == (q * procs) * blockSize;
  }

  /** The code's block count and remainder describe exactly the indices below `span`. */
  lemma CyclicSpan(span: nat, blockSize: nat, cycle: nat, local: nat, y: nat)
    requires 0 < blockSize <= cycle && y % cycle < blockSize
    requires local == (span / cycle) * blockSize + (if span % cycle < blockSize then span % cycle else blockSize)
    ensures y < span <==> InRuns(blockSize, cycle, local / blockSize, local % blockSize, y)
  {
    var q, rem := span / cycle, span % cycle;
    assert span == q * cycle + rem;
    assert y == (y / cycle) * cycle + y % cycle;
    if rem < blockSize {
      DivModUnique(local, blockSize, q, rem);
    } else {
      DivModUnique(local, blockSize, q + 1, 0);
    }
    if y / cycle < q {
      MulMonotone(y / cycle + 1, q, cycle);
      MulDifference(y / cycle + 1, 1, cycle);
    } else if y / cycle > q {
      MulMonotone(q + 1, y / cycle, cycle);
      MulDifference(q + 1, 1, cycle);
    }
  }

  function CyclicStart(size: nat, blockSize: nat, procs: nat, rank: nat): int
    requires blockSize > 0 && procs > 0
  {
    if CyclicLocal(size, blockSize, procs, rank) == 0 then 0 else rank * blockSize
  }

  /** A rank's indices, as the code lays them out. */
  function CyclicPicks(size: nat, blockSize: nat, procs: nat, rank: nat): seq<int>
    requires blockSize > 0 && procs > 0
  {
    var local := CyclicLocal(size, blockSize, procs, rank);
    OffsetBy(CyclicRuns(blockSize, procs * blockSize, local / blockSize, local % blockSize),
             CyclicStart(size, blockSize, procs, rank))
  }

  lemma CyclicNothing(size: nat, blockSize: nat, procs: nat, rank: nat)
    requires blockSize > 0 && procs > 0 && CyclicLocal(size, blockSize, procs, rank) == 0
    ensures CyclicPicks(size, blockSize, procs, rank) == [] && size <= rank * blockSize
  {
    CycleLength(procs, blockSize);
    assert Run(0) == [];
    if rank * blockSize < size { CyclicNonEmpty(size - rank * blockSize, blockSize, procs * blockSize); }
  }

  lemma CyclicMember(size: nat, blockSize: nat, procs: nat, rank: nat, x: int)
    requires blockSize > 0 && rank < procs
    ensures x in CyclicPicks(size, blockSize, procs, rank) <==> 0 <= x < size && InShare(x, blockSize, procs, rank)
  {
    CycleLength(procs, blockSize);
    var local, cycle, start := CyclicLocal(size, blockSize, procs, rank), procs * blockSize, rank * blockSize;
    if local == 0 {
      CyclicNothing(size, blockSize, procs, rank);
    } else {
      var y := x - start;
      OffsetMember(CyclicRuns(blockSize, cycle, local / blockSize, local % blockSize), start, x);
      CyclicRunsExact(blockSize, cycle, local / blockSize, local % blockSize, y);
      if y >= 0 && y % cycle < blockSize { CyclicSpan(size - start, blockSize, cycle, local, y); }
    }
  }

  lemma OffsetMember(s: seq<int>, d: int, x: int)
    ensures x in OffsetBy(s, d) <==> x - d in s
  {
    if x - d in s {
      var i :| 0 <= i < |s| && s[i] == x - d;
      assert OffsetBy(s, d)[i] == x;
    }
  }

  lemma CyclicNonEmpty(span: nat, blockSize: nat, cycle: nat)
    requires 0 < blockSize <= cycle && span > 0
    ensures (span / cycle) * blockSize + (if span % cycle < blockSize then span % cycle else blockSize) > 0
  {
    assert span == (span / cycle) * cycle + span % cycle;
    if span % cycle == 0 {
      assert span / cycle > 0;
      MulAtLeast(span / cycle, blockSize);
    } else {
      assert (span / cycle) * blockSize >= 0;
    }
  }

  lemma CyclicSameMember(order: Order, d: Dim, c: nat, x: int)
    requires LegalDim(d) && d.distribution.Cyclic? && c < d.procs
    ensures x in CyclicPicks(d.size, CycleSize(d.darg), d.procs, c) <==> x in Owned(order, d, c)
  {
    OwnedExact(order, d, c, d.size);
    CyclicMember(d.size, CycleSize(d.darg), d.procs, c, x);
    if x >= 0 { CyclicShare(x, CycleSize(d.darg), d.procs, c); }
  }

  lemma OffsetOrdered(s: seq<int>, d: int)
    requires Increasing(s)
    ensures Increasing(OffsetBy(s, d))
  {}

  lemma CyclicPicksOrdered(size: nat, blockSize: nat, procs: nat, rank: nat)
    requires blockSize > 0 && procs > 0
    ensures Increasing(CyclicPicks(size, blockSize, procs, rank))
  {
    CycleLength(procs, blockSize);
    var local := CyclicLocal(size, blockSize, procs, rank);
    CyclicRunsOrdered(blockSize, procs * blockSize, local / blockSize, local % blockSize);
    OffsetOrdered(CyclicRuns(blockSize, procs * blockSize, local / blockSize, local % blockSize),
                  CyclicStart(size, blockSize, procs, rank));
  }

  lemma CyclicOwned(order: Order, d: Dim, c: nat)
    requires LegalDim(d) && d.distribution.Cyclic? && c < d.procs
    ensures CyclicPicks(d.size, CycleSize(d.darg), d.procs, c) == Owned(order, d, c)
  {
    CyclicPicksOrdered(d.size, CycleSize(d.darg), d.procs, c);
    OwnedExact(order, d, c, d.size);
    forall x ensures x in CyclicPicks(d.size, CycleSize(d.darg), d.procs, c) <==> x in Owned(order, d, c) {
      CyclicSameMember(order, d, c, x);
    }
    SameElements(CyclicPicks(d.size, CycleSize(d.darg), d.procs, c), Owned(order, d, c));
  }
}
