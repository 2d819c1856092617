/** Building the distributed-array datatype, and the two theorems about it: what
    one rank gets, and that the ranks together cover the array exactly once. */
module DarrayTypes {
  import opened Arithmetic
  import opened TypeMaps
  import opened Datatypes
  import opened Vectors
  import opened Grid
  import opened Darrays
  import Merging

  function Sizes(dims: seq<Dim>): seq<nat> { seq(|dims|, k requires 0 <= k < |dims| => dims[k].size) }

  function Procs(dims: seq<Dim>): seq<nat> { seq(|dims|, k requires 0 <= k < |dims| => dims[k].procs) }

  /** Processes are numbered row-major over the grid, whatever the array's order. */
  function GridSizes(dims: seq<Dim>): seq<nat> { Fast(RowMajor, Procs(dims)) }

  function GridCoords(dims: seq<Dim>, rank: nat): seq<nat>
    requires Volume(GridSizes(dims)) > 0
  {
    seq(|dims|, i requires 0 <= i < |dims| => Coord(GridSizes(dims), rank, |dims| - 1 - i))
  }

  /** How the code describes one dimension's indices: relative picks and their start. */
  function LocalPicks(order: Order, d: Dim, c: nat): seq<int>
    requires LegalDim(d)
  {
    match d.distribution
    case Block => Run(BlockCount(d.size, BlockSize(d.size, d.procs, d.darg), c))
    case Cyclic =>
      var b := CycleSize(d.darg);
      var local := CyclicLocal(d.size, b, d.procs, c);
      CyclicRuns(b, d.procs * b, local / b, local % b)
    case NotDistributed =>
      if order.RowMajor? then Run(BlockCount(d.size, BlockSize(d.size, d.procs, DFLT_DARG), c))
      else Run(BlockCount(d.size, BlockSize(d.size, 1, DFLT_DARG), 0))
  }

  function LocalStart(order: Order, d: Dim, c: nat): int
    requires LegalDim(d)
  {
    match d.distribution
    case Block => BlockStart(d.size, BlockSize(d.size, d.procs, d.darg), c)
    case Cyclic => CyclicStart(d.size, CycleSize(d.darg), d.procs, c)
    case NotDistributed =>
      if order.RowMajor? then BlockStart(d.size, BlockSize(d.size, d.procs, DFLT_DARG), c)
      else BlockStart(d.size, BlockSize(d.size, 1, DFLT_DARG), 0)
  }

  lemma LocalIsOwned(order: Order, d: Dim, c: nat)
    requires LegalDim(d) && c < d.procs
    ensures OffsetBy(LocalPicks(order, d, c), LocalStart(order, d, c)) == Owned(order, d, c)
  {
    if d.distribution.Block? { BlockSizePositive(d.size, d.procs, d.darg); }
    BlockSizePositive(d.size, d.procs, DFLT_DARG);
    match d.distribution
    case Block => BlockOwned(order, d, c, BlockSize(d.size, d.procs, d.darg));
    case Cyclic => CyclicOwned(order, d, c);
    case NotDistributed =>
      if order.RowMajor? {
        BlockOwned(order, d, c, BlockSize(d.size, d.procs, DFLT_DARG));
      } else {
        assert BlockSize(d.size, 1, DFLT_DARG) == d.size;
        WholeDimension(order, d, c);
      }
  }

  lemma WholeDimension(order: Order, d: Dim, c: nat)
    requires LegalDim(d) && d.distribution.NotDistributed? && order.ColumnMajor?
    ensures OffsetBy(Run(BlockCount(d.size, d.size, 0)), BlockStart(d.size, d.size, 0)) == Owned(order, d, c)
  {
    assert d.size * 0 == 0;
    var all := OffsetBy(Run(d.size), 0);
    OwnedExact(order, d, c, d.size);
    forall x ensures x in all <==> x in Owned(order, d, c) {
      if 0 <= x < d.size { assert all[x] == x; }
    }
    SameElements(all, Owned(order, d, c));
  }

  function Picks(order: Order, fast: seq<Dim>, coords: seq<nat>): seq<seq<int>>
    requires |fast| == |coords| && LegalDims(fast)
  {
    seq(|fast|, k requires 0 <= k < |fast| => Owned(order, fast[k], coords[k]))
  }

  function RelativePicks(order: Order, fast: seq<Dim>, coords: seq<nat>): seq<seq<int>>
    requires |fast| == |coords| && LegalDims(fast)
  {
    seq(|fast|, k requires 0 <= k < |fast| => LocalPicks(order, fast[k], coords[k]))
  }

  function Starts(order: Order, fast: seq<Dim>, coords: seq<nat>): seq<int>
    requires |fast| == |coords| && LegalDims(fast)
  {
    seq(|fast|, k requires 0 <= k < |fast| => LocalStart(order, fast[k], coords[k]))
  }

  /** Linear indices of the elements held at grid position `coords`. */
  function DarrayOffsets(order: Order, dims: seq<Dim>, coords: seq<nat>): seq<int>
    requires |dims| == |coords| && LegalDims(dims)
  {
    FastLegal(order, dims);
    Offsets(Sizes(Fast(order, dims)), Picks(order, Fast(order, dims), Fast(order, coords)))
  }

  lemma FastLegal(order: Order, dims: seq<Dim>)
    requires LegalDims(dims)
    ensures LegalDims(Fast(order, dims))
  {
    forall d | d in Fast(order, dims) ensures LegalDim(d) {
      assert d in dims;
    }
  }

  lemma {:induction false} PositiveVolume(sizes: seq<nat>)
    requires forall k :: 0 <= k < |sizes| ==> sizes[k] > 0
    ensures Volume(sizes) > 0
    decreases |sizes|
  {
    if sizes != [] {
      var n := |sizes| - 1;
      PositiveVolume(sizes[..n]);
      MulAtLeast(sizes[n], Volume(sizes[..n]));
    }
  }

  lemma Volumes(order: Order, dims: seq<Dim>)
    requires LegalDims(dims)
    ensures Volume(Sizes(Fast(order, dims))) > 0 && Volume(GridSizes(dims)) > 0
  {
    FastLegal(order, dims);
    var fast := Fast(order, dims);
    forall k | 0 <= k < |fast| ensures Sizes(fast)[k] > 0 { assert LegalDim(fast[k]); }
    PositiveVolume(Sizes(fast));
    forall k | 0 <= k < |dims| ensures GridSizes(dims)[k] > 0 { assert LegalDim(dims[|dims| - 1 - k]); }
    PositiveVolume(GridSizes(dims));
  }

  predicate OnGrid(dims: seq<Dim>, coords: seq<nat>) {
    |coords| == |dims| && forall i :: 0 <= i < |dims| ==> coords[i] < dims[i].procs
  }

  // ----- theorem: what one rank gets -----

  /** The element's coordinate along the user's dimension i. */
  function ElementCoord(order: Order, dims: seq<Dim>, e: nat, i: nat): nat
    requires i < |dims| && Volume(Sizes(Fast(order, dims))) > 0
  {
    Coord(Sizes(Fast(order, dims)), e, DimAt(order, |dims|, i))
  }

  /** Every coordinate of e is held at this grid position. */
  predicate Holds(order: Order, dims: seq<Dim>, coords: seq<nat>, e: nat)
    requires |coords| == |dims| && LegalDims(dims) && Volume(Sizes(Fast(order, dims))) > 0
  {
    forall i :: 0 <= i < |dims| ==> Owns(order, dims[i], coords[i], ElementCoord(order, dims, e, i))
  }

  lemma PicksLegal(order: Order, dims: seq<Dim>, coords: seq<nat>)
    requires |dims| == |coords| && LegalDims(dims)
    ensures LegalDims(Fast(order, dims))
    ensures Legal(Sizes(Fast(order, dims)), Picks(order, Fast(order, dims), Fast(order, coords)))
  {
    FastLegal(order, dims);
    Volumes(order, dims);
    var fast, c := Fast(order, dims), Fast(order, coords);
    forall k | 0 <= k < |fast|
      ensures Increasing(Picks(order, fast, c)[k]) && Within(Picks(order, fast, c)[k], Sizes(fast)[k])
    {
      OwnedExact(order, fast[k], c[k], fast[k].size);
    }
  }

  lemma OwnsCoordinate(order: Order, dims: seq<Dim>, coords: seq<nat>, e: nat, i: nat)
    requires |dims| == |coords| && LegalDims(dims) && i < |dims|
    requires Volume(Sizes(Fast(order, dims))) > 0 && LegalDims(Fast(order, dims))
    ensures var k := DimAt(order, |dims|, i);
      Coord(Sizes(Fast(order, dims)), e, k) in Picks(order, Fast(order, dims), Fast(order, coords))[k]
      <==> Owns(order, dims[i], coords[i], ElementCoord(order, dims, e, i))
  {
    var k := DimAt(order, |dims|, i);
    assert DimAt(order, |dims|, k) == i;
    VolumePositive(Sizes(Fast(order, dims)), k);
    OwnedExact(order, dims[i], coords[i], dims[i].size);
  }

  /** In strictly increasing storage order, exactly the elements whose
      coordinates the distribution rules give to the grid position. */
  lemma DarrayMeaning(order: Order, dims: seq<Dim>, coords: seq<nat>, e: int)
    requires |dims| == |coords| && LegalDims(dims)
    ensures Increasing(DarrayOffsets(order, dims, coords))
    ensures Volume(Sizes(Fast(order, dims))) > 0
    ensures e in DarrayOffsets(order, dims, coords)
      <==> 0 <= e < Volume(Sizes(Fast(order, dims))) && Holds(order, dims, coords, e)
  {
    var fast, c := Fast(order, dims), Fast(order, coords);
    PicksLegal(order, dims, coords);
    Volumes(order, dims);
    OffsetsOrdered(Sizes(fast), Picks(order, fast, c));
    OffsetsMember(Sizes(fast), Picks(order, fast, c), e);
    if 0 <= e < Volume(Sizes(fast)) {
      forall i | 0 <= i < |dims|
        ensures Coord(Sizes(fast), e, DimAt(order, |dims|, i)) in Picks(order, fast, c)[DimAt(order, |dims|, i)]
          <==> Owns(order, dims[i], coords[i], ElementCoord(order, dims, e, i))
      {
        OwnsCoordinate(order, dims, coords, e, i);
      }
      if Holds(order, dims, coords, e) {
        forall k | 0 <= k < |fast| ensures Coord(Sizes(fast), e, k) in Picks(order, fast, c)[k] {
          assert k == DimAt(order, |dims|, DimAt(order, |dims|, k));
        }
      }
    }
  }

  // ----- theorem: the ranks cover the array exactly once -----

  /** The grid coordinate that holds index x. */
  function Owner(order: Order, d: Dim, x: nat): nat
    requires LegalDim(d)
  {
    BlockSizePositive(d.size, d.procs, DFLT_DARG);
    match d.distribution
    case Block =>
      BlockSizePositive(d.size, d.procs, d.darg);
      x / BlockSize(d.size, d.procs, d.darg)
    case Cyclic => (x / CycleSize(d.darg)) % d.procs
    case NotDistributed => if order.ColumnMajor? then 0 else x / BlockSize(d.size, d.procs, DFLT_DARG)
  }

  /** The code replicates this dimension over its processes. */
  predicate Replicated(order: Order, d: Dim) {
    order.ColumnMajor? && d.distribution.NotDistributed? && d.procs > 1
  }

  lemma OwnerOwns(order: Order, d: Dim, x: nat)
    requires LegalDim(d) && x < d.size
    ensures Owner(order, d, x) < d.procs && Owns(order, d, Owner(order, d, x), x)
    ensures !Replicated(order, d) ==> forall c :: 0 <= c < d.procs && Owns(order, d, c, x) ==> c == Owner(order, d, x)
  {
    BlockSizePositive(d.size, d.procs, DFLT_DARG);
    match d.distribution
    case Block =>
      BlockSizePositive(d.size, d.procs, d.darg);
      var b := BlockSize(d.size, d.procs, d.darg);
      assert b * d.procs == d.procs * b;
      QuotientBound(x, b, d.procs);
    case Cyclic =>
    case NotDistributed =>
      QuotientBound(x, BlockSize(d.size, d.procs, DFLT_DARG), d.procs);
  }

  /** Rank of a grid position. */
  function RankOf(dims: seq<Dim>, coords: seq<nat>): int
    requires |coords| == |dims|
  {
    Linear(GridSizes(dims), Fast<int>(RowMajor, coords))
  }

  lemma RankOfCoords(dims: seq<Dim>, coords: seq<nat>)
    requires LegalDims(dims) && OnGrid(dims, coords) && Volume(GridSizes(dims)) > 0
    ensures 0 <= RankOf(dims, coords) < Volume(GridSizes(dims))
    ensures GridCoords(dims, RankOf(dims, coords)) == coords
  {
    LinearCoord(GridSizes(dims), Fast<int>(RowMajor, coords));
  }

  /** The rank-to-position map is a bijection onto the grid. */
  lemma CoordsOfRank(dims: seq<Dim>, rank: nat)
    requires LegalDims(dims) && rank < Volume(GridSizes(dims))
    ensures OnGrid(dims, GridCoords(dims, rank)) && RankOf(dims, GridCoords(dims, rank)) == rank
  {
    var g, coords := GridSizes(dims), GridCoords(dims, rank);
    forall i | 0 <= i < |dims| ensures coords[i] < dims[i].procs {
      VolumePositive(g, |dims| - 1 - i);
      assert g[|dims| - 1 - i] == dims[i].procs;
      assert coords[i] == Coord(g, rank, |dims| - 1 - i) < g[|dims| - 1 - i];
    }
    CoordLinear(g, rank, Fast<int>(RowMajor, coords));
  }

  function Owners(order: Order, dims: seq<Dim>, e: nat): seq<nat>
    requires LegalDims(dims) && Volume(Sizes(Fast(order, dims))) > 0
  {
    seq(|dims|, i requires 0 <= i < |dims| => Owner(order, dims[i], ElementCoord(order, dims, e, i)))
  }

  lemma OwnersHold(order: Order, dims: seq<Dim>, e: nat)
    requires LegalDims(dims) && Volume(Sizes(Fast(order, dims))) > 0
    ensures OnGrid(dims, Owners(order, dims, e)) && Holds(order, dims, Owners(order, dims, e), e)
    ensures (forall i :: 0 <= i < |dims| ==> !Replicated(order, dims[i])) ==>
      forall coords :: OnGrid(dims, coords) && Holds(order, dims, coords, e) ==> coords == Owners(order, dims, e)
  {
    forall i | 0 <= i < |dims|
      ensures ElementCoord(order, dims, e, i) < dims[i].size
      ensures Owner(order, dims[i], ElementCoord(order, dims, e, i)) < dims[i].procs
      ensures Owns(order, dims[i], Owners(order, dims, e)[i], ElementCoord(order, dims, e, i))
      ensures !Replicated(order, dims[i]) ==>
        forall c :: 0 <= c < dims[i].procs && Owns(order, dims[i], c, ElementCoord(order, dims, e, i)) ==>
            c == Owners(order, dims, e)[i]
    {
      VolumePositive(Sizes(Fast(order, dims)), DimAt(order, |dims|, i));
      OwnerOwns(order, dims[i], ElementCoord(order, dims, e, i));
    }
  }

  /** Rank r's datatype selects element e. */
  predicate Selects(order: Order, dims: seq<Dim>, r: nat, e: int)
    requires LegalDims(dims) && Volume(GridSizes(dims)) > 0
  {
    e in DarrayOffsets(order, dims, GridCoords(dims, r))
  }

  /** Rank r, and no other rank, selects element e. */
  predicate SelectsAlone(order: Order, dims: seq<Dim>, r: nat, e: int)
    requires LegalDims(dims) && Volume(GridSizes(dims)) > 0
  {
    && r < Volume(GridSizes(dims)) && Selects(order, dims, r, e)
    && forall q :: 0 <= q < Volume(GridSizes(dims)) && Selects(order, dims, q, e) ==> q == r
  }

  predicate SelectedOnce(order: Order, dims: seq<Dim>, e: int)
    requires LegalDims(dims) && Volume(GridSizes(dims)) > 0
  {
    exists r :: 0 <= r < Volume(GridSizes(dims)) && SelectsAlone(order, dims, r, e)
  }

  /** Every element of the global array is selected by exactly one rank. */
  predicate ExactlyOnce(order: Order, dims: seq<Dim>)
    requires LegalDims(dims) && Volume(GridSizes(dims)) > 0
  {
    forall e :: 0 <= e < Volume(Sizes(Fast(order, dims))) ==> SelectedOnce(order, dims, e)
  }

  lemma SomeRankSelects(order: Order, dims: seq<Dim>, e: nat)
    requires LegalDims(dims) && Volume(GridSizes(dims)) > 0 && e < Volume(Sizes(Fast(order, dims)))
    ensures var r := RankOf(dims, Owners(order, dims, e));
      0 <= r < Volume(GridSizes(dims)) && Selects(order, dims, r, e)
  {
    OwnersHold(order, dims, e);
    RankOfCoords(dims, Owners(order, dims, e));
    DarrayMeaning(order, dims, Owners(order, dims, e), e);
  }

  lemma OnlyRankSelects(order: Order, dims: seq<Dim>, e: nat, q: nat)
    requires LegalDims(dims) && Volume(GridSizes(dims)) > 0 && e < Volume(Sizes(Fast(order, dims)))
    requires forall i :: 0 <= i < |dims| ==> !Replicated(order, dims[i])
    requires q < Volume(GridSizes(dims)) && Selects(order, dims, q, e)
    ensures q == RankOf(dims, Owners(order, dims, e))
  {
    CoordsOfRank(dims, q);
    DarrayMeaning(order, dims, GridCoords(dims, q), e);
    OwnersHold(order, dims, e);
  }

  /** A replicated dimension gives element 0 to a second rank. */
  lemma SecondRankSelects(order: Order, dims: seq<Dim>, i: nat) returns (r: nat, q: nat)
    requires LegalDims(dims) && Volume(GridSizes(dims)) > 0
    requires i < |dims| && Replicated(order, dims[i])
    ensures r != q && r < Volume(GridSizes(dims)) && q < Volume(GridSizes(dims))
    ensures Selects(order, dims, r, 0) && Selects(order, dims, q, 0)
  {
    Volumes(order, dims);
    OwnersHold(order, dims, 0);
    var first := Owners(order, dims, 0);
    var second := first[i := 1];
    SomeRankSelects(order, dims, 0);
    RankOfCoords(dims, first);
    RankOfCoords(dims, second);
    r, q := RankOf(dims, first), RankOf(dims, second);
    assert first[i] == 0 && second[i] == 1;
    DarrayMeaning(order, dims, second, 0);
  }

  /** The partition theorem, with the exact condition under which it holds. */
  lemma DarrayPartition(order: Order, dims: seq<Dim>)
    requires LegalDims(dims)
    ensures Volume(GridSizes(dims)) > 0
    ensures ExactlyOnce(order, dims) <==> forall i :: 0 <= i < |dims| ==> !Replicated(order, dims[i])
  {
    Volumes(order, dims);
    if forall i :: 0 <= i < |dims| ==> !Replicated(order, dims[i]) {
      forall e | 0 <= e < Volume(Sizes(Fast(order, dims))) ensures SelectedOnce(order, dims, e) {
        SomeRankSelects(order, dims, e);
        var r := RankOf(dims, Owners(order, dims, e));
        forall q | 0 <= q < Volume(GridSizes(dims)) && Selects(order, dims, q, e) ensures q == r {
          OnlyRankSelects(order, dims, e, q);
        }
        assert SelectsAlone(order, dims, r, e);
      }
    } else {
      var i :| 0 <= i < |dims| && Replicated(order, dims[i]);
      var r, q := SecondRankSelects(order, dims, i);
      assert !SelectedOnce(order, dims, 0);
    }
  }

  // ----- building the datatype -----

  /** The product of the `count` fastest sizes, times `base`. */
  method ScaledStride(order: Order, sizes: seq<nat>, count: nat, base: int) returns (stride: int)
    requires count <= |sizes|
    ensures stride == Volume(Fast(order, sizes)[..count]) * base
  {
    stride := base;
    var step := if order.RowMajor? then -1 else 1;
    var i := if order.RowMajor? then |sizes| - 1 else 0;
    for k := 0 to count
      invariant i == DimAt(order, |sizes|, k)
      invariant stride == Volume(Fast(order, sizes)[..k]) * base
    {
      VolumeStep(Fast(order, sizes), k);
      Commute(Volume(Fast(order, sizes)[..k]), base, sizes[i]);
      stride := stride * sizes[i];
      i := i + step;
    }
  }

  lemma Commute(a: int, b: int, c: int)
    ensures (a * b) * c == (a * c) * b
  {
    assert (a * b) * c == a * (b * c) == a * (c * b);
  }

  /** One block-distributed dimension; `dim` is the k-th fastest. */
  method CreateBlock(order: Order, sizes: seq<nat>, dim: int, nprocs: nat, rank: nat, darg: int, origExtent: int,
                     oldType: Datatype)
    returns (newType: Datatype, stOffset: int)
    requires oldType.Valid() && 0 <= dim < |sizes| && sizes[dim] > 0
    requires nprocs > 0 && (darg == DFLT_DARG || darg >= 1)
    requires oldType.Extent() == Volume(Fast(order, sizes)[..DimAt(order, |sizes|, dim)]) * origExtent
    ensures fresh(newType) && newType.Valid()
    ensures var k := DimAt(order, |sizes|, dim);
      && newType.Extent() == Volume(Fast(order, sizes)[..k + 1]) * origExtent
      && newType.typemap == Repeat(oldType.typemap, BlockCount(sizes[dim], BlockSize(sizes[dim], nprocs, darg), rank),
                                   0,
                                   Volume(Fast(order, sizes)[..k]) * origExtent)
    ensures stOffset == BlockStart(sizes[dim], BlockSize(sizes[dim], nprocs, darg), rank)
  {
    hide Volume, Fast, Repeat, HVectorMap, StridedMap, BlockMarks;
    var globalSize := sizes[dim];
    var blksize := if darg == DFLT_DARG then (globalSize + nprocs - 1) / nprocs else darg;
    var j := globalSize - blksize * rank;
    var mysize := if blksize < j then blksize else j;
    if mysize < 0 { mysize := 0; }
    var k := DimAt(order, |sizes|, dim);
    if k == 0 {
      newType := CreateContiguous(mysize, oldType);
    } else {
      var stride := ScaledStride(order, sizes, k, origExtent);
      newType := CreateHVector(mysize, 1, stride, oldType);
      UnitBlocks(oldType.typemap, mysize, stride, oldType.Extent());
    }
    stOffset := blksize * rank;
    if mysize == 0 { stOffset := 0; }
    var ub := ScaledStride(order, sizes, k + 1, origExtent);
    newType.Resize(0, ub);
  }

  /** The typemap of a block-cyclic dimension over a type of extent `extent`. */
  function CyclicMap(m: TypeMap, blockSize: nat, cycle: int, count: nat, rem: nat, extent: int): TypeMap {
    Repeat(Repeat(m, blockSize, 0, extent), count, 0, cycle * extent) + Repeat(m, rem, count * (cycle * extent), extent)
  }

  /** A cyclic stride of -1 byte is a single-process, single-element cycle. */
  lemma CycleHonoured(blockSize: nat, procs: nat, extent: int)
    requires blockSize > 0 && procs > 0
    ensures (procs * blockSize) * extent == -1 ==> blockSize * extent == (procs * blockSize) * extent
  {
    CycleLength(procs, blockSize);
    if (procs * blockSize) * extent == -1 {
      UnitFactor(procs * blockSize, extent);
    }
  }

  lemma UnitFactor(a: nat, b: int)
    requires a * b == -1
    ensures a == 1
  {}

  /** How many indices of a cyclic dimension the rank holds. */
  method LocalSize(globalSize: nat, blksize: nat, nprocs: nat, rank: nat) returns (localSize: nat)
    requires globalSize > 0 && blksize > 0 && nprocs > 0
    ensures localSize == CyclicLocal(globalSize, blksize, nprocs, rank)
  {
    var stIndex, endIndex := rank * blksize, globalSize - 1;
    CycleLength(nprocs, blksize);
    if endIndex < stIndex {
      localSize := 0;
    } else {
      var rem := (endIndex - stIndex + 1) % (nprocs * blksize);
      localSize := ((endIndex - stIndex + 1) / (nprocs * blksize)) * blksize;
      localSize := localSize + (if rem < blksize then rem else blksize);
    }
  }

  /** A block-cyclic dimension: whole blocks as a vector, a last partial block added to it. */
  method CreateCyclic(order: Order, sizes: seq<nat>, dim: int, nprocs: nat, rank: nat, darg: int, origExtent: int,
                      oldType: Datatype)
    returns (newType: Datatype, stOffset: int)
    requires oldType.Valid() && 0 <= dim < |sizes| && sizes[dim] > 0
    requires nprocs > 0 && (darg == DFLT_DARG || darg >= 1)
    requires oldType.Extent() == Volume(Fast(order, sizes)[..DimAt(order, |sizes|, dim)]) * origExtent
    ensures fresh(newType) && newType.Valid()
    ensures newType.Extent() == Volume(Fast(order, sizes)[..DimAt(order, |sizes|, dim) + 1]) * origExtent
    ensures var b := CycleSize(darg);
      var local := CyclicLocal(sizes[dim], b, nprocs, rank);
      newType.typemap == CyclicMap(oldType.typemap, b, nprocs * b, local / b, local % b, oldType.Extent())
    ensures stOffset == CyclicStart(sizes[dim], CycleSize(darg), nprocs, rank)
  {
    var blksize := if darg == DFLT_DARG then 1 else darg;
    var localSize := LocalSize(sizes[dim], blksize, nprocs, rank);
    var k := DimAt(order, |sizes|, dim);
    var stride := ScaledStride(order, sizes, k, nprocs * blksize * origExtent);
    CycleStride(Volume(Fast(order, sizes)[..k]), nprocs * blksize, origExtent);
    newType := CreateCycles(localSize / blksize, localSize % blksize, blksize, nprocs, stride, oldType);
    var ub := ScaledStride(order, sizes, k + 1, origExtent);
    newType.Resize(0, ub);
    stOffset := rank * blksize;
    if localSize == 0 { stOffset := 0; }
  }

  method CreateCycles(count: nat, rem: nat, blksize: nat, nprocs: nat, stride: int, oldType: Datatype)
      returns (newType: Datatype)
    requires oldType.Valid() && blksize > 0 && nprocs > 0 && stride == (nprocs * blksize) * oldType.Extent()
    ensures fresh(newType) && newType.Valid()
    ensures newType.typemap == CyclicMap(oldType.typemap, blksize, nprocs * blksize, count, rem, oldType.Extent())
  {
    newType := CreateHVector(count, blksize, stride, oldType);
    CycleHonoured(blksize, nprocs, oldType.Extent());
    if rem != 0 {
      newType := AppendPartial(newType, count * stride, oldType, rem);
    }
  }

  lemma CycleStride(volume: nat, cycle: nat, extent: int)
    ensures volume * (cycle * extent) == cycle * (volume * extent)
  {
    assert volume * (cycle * extent) == (volume * cycle) * extent == (cycle * volume) * extent;
  }

  /** A two-member struct: the whole blocks, and `rem` copies at byte `disp`. */
  method AppendPartial(blocks: Datatype, disp: int, oldType: Datatype, rem: nat) returns (newType: Datatype)
    requires blocks.Valid() && oldType.Valid()
    ensures fresh(newType) && newType.Valid()
    ensures newType.typemap == blocks.typemap + Repeat(oldType.typemap, rem, disp, oldType.Extent())
  {
    newType := Merging.CreateStruct(2, [1, rem], [0, disp], [blocks, oldType]);
    ghost var maps, extents := [blocks.typemap, oldType.typemap], [blocks.Extent(), oldType.Extent()];
    assert Merging.Maps([blocks, oldType]) == maps && Merging.Extents([blocks, oldType]) == extents;
    Merging.StructSnoc(maps, extents, [1, rem], [0, disp], 0);
    Merging.StructSnoc(maps, extents, [1, rem], [0, disp], 1);
    assert maps[..2] == maps && extents[..2] == extents && [1, rem][..2] == [1, rem] && [0, disp][..2] == [0, disp];
    RepeatOne(blocks.typemap, 0, blocks.Extent());
    ShiftZero(blocks.typemap);
  }

  /** The position of a rank in the process grid. */
  method ComputeCoords(size: nat, rank: nat, dims: seq<Dim>) returns (coords: seq<nat>)
    requires LegalDims(dims) && size == Volume(GridSizes(dims)) && rank < size
    ensures coords == GridCoords(dims, rank)
  {
    var tmpRank, procs, n := rank, size, |dims|;
    coords := [];
    ghost var g := GridSizes(dims);
    assert g[..n] == g;
    DivModUnique(rank, size, 0, rank);
    for i := 0 to n
      invariant procs == Volume(g[..n - i]) > 0 && tmpRank == rank % procs
      invariant coords == GridCoords(dims, rank)[..i]
    {
      CoordStep(g, rank, n - 1 - i);
      assert g[n - 1 - i] == dims[i].procs;
      procs := procs / dims[i].procs;
      coords := coords + [tmpRank / procs];
      tmpRank := tmpRank % procs;
    }
  }

  lemma CoordStep(g: seq<nat>, rank: nat, k: nat)
    requires Volume(g) > 0 && k < |g|
    ensures g[k] > 0 && Volume(g[..k]) > 0 && Volume(g[..k + 1]) > 0
    ensures Volume(g[..k + 1]) / g[k] == Volume(g[..k])
    ensures (rank % Volume(g[..k + 1])) / Volume(g[..k]) == Coord(g, rank, k)
    ensures (rank % Volume(g[..k + 1])) % Volume(g[..k]) == rank % Volume(g[..k])
  {
    VolumePositive(g, k);
    VolumePositive(g, k + 1);
    VolumeStep(g, k);
    SplitMod(rank, Volume(g[..k + 1]), Volume(g[..k]), g[k]);
  }

  lemma SplitMod(e: nat, v: nat, w: nat, s: nat)
    requires w > 0 && s > 0 && v == w * s
    ensures v > 0 && v / s == w && (e % v) / w == (e / w) % s && (e % v) % w == e % w
  {
    assert v > 0;
    DivModUnique(v, s, w, 0);
    ModDivMod(e, v, w, s, 1);
    QuotientBound(e % v, w, s);
    var q, r := e / v, e % v;
    assert e == q * v + r && r == (r / w) * w + r % w;
    assert q * v == (q * s) * w;
    assert (q * s + r / w) * w == (q * s) * w + (r / w) * w;
    DivModUnique(e, w, q * s + r / w, r % w);
  }

  /** A cyclic dimension over what the faster dimensions expand to. */
  lemma ExpandCyclic(m: TypeMap, inner: seq<int>, extent: int, b: nat, cycle: nat, count: nat, rem: nat, stride: int)
    ensures CyclicMap(Expand(m, inner, extent), b, cycle, count, rem, stride * extent)
         == Expand(m, Spread(inner, CyclicRuns(b, cycle, count, rem), stride), extent)
  {
    var t := Expand(m, inner, extent);
    var blocks := Spread(inner, Run(b), stride);
    ExpandDimension(m, inner, extent, b, stride);
    assert cycle * (stride * extent) == (cycle * stride) * extent;
    ExpandDimension(m, blocks, extent, count, cycle * stride);
    SpreadSpread(inner, Run(b), Run(count), cycle, stride);
    ExpandPartial(m, inner, extent, rem, count * cycle, stride);
    assert count * (cycle * (stride * extent)) == ((count * cycle) * stride) * extent
        by { Regroup(count, cycle, stride, extent); }
    SpreadConcat(inner, Spread(Run(b), Run(count), cycle), OffsetBy(Run(rem), count * cycle), stride);
    ExpandConcat(m, Spread(blocks, Run(count), cycle * stride),
                 Spread(inner, OffsetBy(Run(rem), count * cycle), stride), extent);
  }

  lemma Regroup(a: int, b: int, c: int, d: int)
    ensures a * (b * (c * d)) == ((a * b) * c) * d
  {
    assert b * (c * d) == (b * c) * d;
    assert a * ((b * c) * d) == (a * (b * c)) * d;
    assert a * (b * c) == (a * b) * c;
  }

  lemma ExpandPartial(m: TypeMap, inner: seq<int>, extent: int, rem: nat, start: int, stride: int)
    ensures Repeat(Expand(m, inner, extent), rem, (start * stride) * extent, stride * extent)
         == Expand(m, Spread(inner, OffsetBy(Run(rem), start), stride), extent)
  {
    RepeatExpand(m, inner, extent, rem, start * stride, stride);
    SpreadRun(inner, rem, start, stride);
  }

  /** Loop invariant: the k fastest dimensions have been laid out, each from its own start. */
  ghost predicate Laid(built: TypeMap, m: TypeMap, extent: int, order: Order, fast: seq<Dim>, coords: seq<nat>, k: nat)
  {
    && |fast| == |coords| && LegalDims(fast) && k <= |fast|
    && built == Expand(m, Offsets(Sizes(fast)[..k], RelativePicks(order, fast, coords)[..k]), extent)
  }

  lemma LaidMore(built: TypeMap, next: TypeMap, m: TypeMap, extent: int, order: Order, fast: seq<Dim>, coords: seq<nat>,
                 k: nat)
    requires Laid(built, m, extent, order, fast, coords, k) && k < |fast|
    requires next == Expand(m, Spread(Offsets(Sizes(fast)[..k], RelativePicks(order, fast, coords)[..k]),
                                      LocalPicks(order, fast[k], coords[k]), Volume(Sizes(fast)[..k])), extent)
    ensures Laid(next, m, extent, order, fast, coords, k + 1)
  {
    OffsetsSnoc(Sizes(fast), RelativePicks(order, fast, coords), k);
  }

  lemma PicksAreMoved(order: Order, fast: seq<Dim>, coords: seq<nat>)
    requires |fast| == |coords| && LegalDims(fast)
    requires forall k :: 0 <= k < |fast| ==> coords[k] < fast[k].procs
    ensures Moved(RelativePicks(order, fast, coords), Starts(order, fast, coords)) == Picks(order, fast, coords)
  {
    forall k | 0 <= k < |fast|
      ensures Moved(RelativePicks(order, fast, coords), Starts(order, fast, coords))[k] == Picks(order, fast, coords)[k]
    {
      LocalIsOwned(order, fast[k], coords[k]);
    }
  }

  /** Laying out relative to the starts and shifting once selects the right elements. */
  lemma LaidAll(built: TypeMap, m: TypeMap, extent: int, order: Order, dims: seq<Dim>, coords: seq<nat>)
    requires LegalDims(dims) && OnGrid(dims, coords)
    requires Laid(built, m, extent, order, Fast(order, dims), Fast(order, coords), |dims|)
    ensures LegalDims(Fast(order, dims))
    ensures var fast, c := Fast(order, dims), Fast(order, coords);
      Shift(built, Linear(Sizes(fast), Starts(order, fast, c)) * extent)
          == Expand(m, DarrayOffsets(order, dims, coords), extent)
  {
    var fast, c := Fast(order, dims), Fast(order, coords);
    var sizes, picks, starts := Sizes(fast), RelativePicks(order, fast, c), Starts(order, fast, c);
    assert sizes[..|fast|] == sizes && picks[..|fast|] == picks;
    PicksAreMoved(order, fast, c);
    OffsetsMoved(sizes, picks, starts);
    ShiftExpand(m, Offsets(sizes, picks), extent, Linear(sizes, starts));
  }

  /** A dimension whose indices are one run. */
  method AddRun(order: Order, sizes: seq<nat>, i: int, nprocs: nat, rank: nat, darg: int, origExtent: int,
                lastType: Datatype,
                ghost m: TypeMap, ghost inner: seq<int>, ghost stride: nat)
    returns (newType: Datatype, stOffset: int)
    requires lastType.Valid() && 0 <= i < |sizes| && sizes[i] > 0
    requires nprocs > 0 && (darg == DFLT_DARG || darg >= 1)
    requires stride == Volume(Fast(order, sizes)[..DimAt(order, |sizes|, i)])
    requires lastType.Extent() == stride * origExtent && lastType.typemap == Expand(m, inner, origExtent)
    ensures fresh(newType) && newType.Valid()
    ensures newType.Extent() == Volume(Fast(order, sizes)[..DimAt(order, |sizes|, i) + 1]) * origExtent
    ensures newType.typemap
         == Expand(m, Spread(inner, Run(BlockCount(sizes[i], BlockSize(sizes[i], nprocs, darg), rank)), stride),
                   origExtent)
    ensures stOffset == BlockStart(sizes[i], BlockSize(sizes[i], nprocs, darg), rank)
  {
    newType, stOffset := CreateBlock(order, sizes, i, nprocs, rank, darg, origExtent, lastType);
    ExpandDimension(m, inner, origExtent, BlockCount(sizes[i], BlockSize(sizes[i], nprocs, darg), rank), stride);
  }

  lemma CycleExpanded(m: TypeMap, inner: seq<int>, extent: int, size: nat, darg: int, nprocs: nat, rank: nat,
                      stride: nat)
    requires nprocs > 0 && (darg == DFLT_DARG || darg >= 1)
    ensures var b := CycleSize(darg);
      var local := CyclicLocal(size, b, nprocs, rank);
      CyclicMap(Expand(m, inner, extent), b, nprocs * b, local / b, local % b, stride * extent)
      == Expand(m, Spread(inner, CyclicRuns(b, nprocs * b, local / b, local % b), stride), extent)
  {
    var b := CycleSize(darg);
    var local := CyclicLocal(size, b, nprocs, rank);
    ExpandCyclic(m, inner, extent, b, nprocs * b, local / b, local % b, stride);
  }

  /** A dimension whose indices are blocks a cycle apart. */
  method AddCycles(order: Order, sizes: seq<nat>, i: int, nprocs: nat, rank: nat, darg: int, origExtent: int,
                   lastType: Datatype,
                   ghost m: TypeMap, ghost inner: seq<int>, ghost stride: nat)
    returns (newType: Datatype, stOffset: int)
    requires lastType.Valid() && 0 <= i < |sizes| && sizes[i] > 0
    requires nprocs > 0 && (darg == DFLT_DARG || darg >= 1)
    requires stride == Volume(Fast(order, sizes)[..DimAt(order, |sizes|, i)])
    requires lastType.Extent() == stride * origExtent && lastType.typemap == Expand(m, inner, origExtent)
    ensures fresh(newType) && newType.Valid()
    ensures newType.Extent() == Volume(Fast(order, sizes)[..DimAt(order, |sizes|, i) + 1]) * origExtent
    ensures var b := CycleSize(darg);
      var local := CyclicLocal(sizes[i], b, nprocs, rank);
      newType.typemap == Expand(m, Spread(inner, CyclicRuns(b, nprocs * b, local / b, local % b), stride), origExtent)
    ensures stOffset == CyclicStart(sizes[i], CycleSize(darg), nprocs, rank)
  {
    newType, stOffset := CreateCyclic(order, sizes, i, nprocs, rank, darg, origExtent, lastType);
    hide Expand, Spread, CyclicRuns, Volume, Fast, CyclicLocal, CyclicStart, CyclicMap;
    CycleExpanded(m, inner, origExtent, sizes[i], darg, nprocs, rank, stride);
  }

  /** One turn of the building loop. */
  method AddDimension(order: Order, d: Dim, sizes: seq<nat>, i: int, coord: nat, origExtent: int, lastType: Datatype,
                      ghost m: TypeMap, ghost inner: seq<int>, ghost stride: nat)
    returns (newType: Datatype, stOffset: int)
    requires lastType.Valid() && 0 <= i < |sizes| && LegalDim(d) && sizes[i] == d.size
    requires stride == Volume(Fast(order, sizes)[..DimAt(order, |sizes|, i)])
    requires lastType.Extent() == stride * origExtent && lastType.typemap == Expand(m, inner, origExtent)
    ensures fresh(newType) && newType.Valid()
    ensures newType.Extent() == Volume(Fast(order, sizes)[..DimAt(order, |sizes|, i) + 1]) * origExtent
    ensures newType.typemap == Expand(m, Spread(inner, LocalPicks(order, d, coord), stride), origExtent)
    ensures stOffset == LocalStart(order, d, coord)
  {
    match d.distribution
    case Block =>
      newType, stOffset := AddRun(order, sizes, i, d.procs, coord, d.darg, origExtent, lastType, m, inner, stride);
    case Cyclic =>
      newType, stOffset := AddCycles(order, sizes, i, d.procs, coord, d.darg, origExtent, lastType, m, inner, stride);
    case NotDistributed =>
      var nprocs, tmpRank := d.procs, coord;
      if order.ColumnMajor? { nprocs, tmpRank := 1, 0; }
      newType, stOffset := AddRun(order, sizes, i, nprocs, tmpRank, DFLT_DARG, origExtent, lastType, m, inner, stride);
  }

  /** What holds of the type under construction after k dimensions. */
  ghost predicate Layered(t: TypeMap, tExtent: int, m: TypeMap, extent: int, order: Order, dims: seq<Dim>,
                          coords: seq<nat>, k: nat) {
    && |coords| == |dims| && k <= |dims|
    && Laid(t, m, extent, order, Fast(order, dims), Fast(order, coords), k)
    && tExtent == Volume(Sizes(Fast(order, dims))[..k]) * extent
  }

  lemma LayeredNone(m: TypeMap, extent: int, order: Order, dims: seq<Dim>, coords: seq<nat>)
    requires LegalDims(dims) && |coords| == |dims|
    ensures Layered(m, extent, m, extent, order, dims, coords, 0)
  {
    FastLegal(order, dims);
    ExpandOne(m, extent);
  }

  /** One turn of the building loop. */
  method AddLayer(order: Order, dims: seq<Dim>, coords: seq<nat>, i: int, ghost k: nat, origExtent: int,
                  built: Datatype, ghost m: TypeMap)
    returns (lastType: Datatype, stOffset: int)
    requires built.Valid() && LegalDims(dims) && OnGrid(dims, coords)
    requires k < |dims| && i == DimAt(order, |dims|, k)
    requires Layered(built.typemap, built.Extent(), m, origExtent, order, dims, coords, k)
    ensures fresh(lastType) && lastType.Valid()
    ensures Layered(lastType.typemap, lastType.Extent(), m, origExtent, order, dims, coords, k + 1)
    ensures stOffset == LocalStart(order, dims[i], coords[i])
  {
    ghost var fast, c := Fast(order, dims), Fast(order, coords);
    ghost var stride, inner := Volume(Sizes(fast)[..k]), Offsets(Sizes(fast)[..k], RelativePicks(order, fast, c)[..k]);
    assert LegalDim(dims[i]);
    assert Fast(order, Sizes(dims)) == Sizes(fast);
    assert DimAt(order, |dims|, i) == k;
    hide Volume, Offsets, Expand, Repeat;
    lastType, stOffset := AddDimension(order, dims[i], Sizes(dims), i, coords[i], origExtent, built, m, inner, stride);
    LaidMore(built.typemap, lastType.typemap, m, origExtent, order, fast, c, k);
  }

  /** The building loop, fastest dimension first. */
  method BuildLayers(order: Order, dims: seq<Dim>, coords: seq<nat>, oldType: Datatype)
      returns (lastType: Datatype, stOffsets: seq<int>)
    requires oldType.Valid() && LegalDims(dims) && OnGrid(dims, coords)
    ensures fresh(lastType) && lastType.Valid()
    ensures Layered(lastType.typemap, lastType.Extent(), oldType.typemap, oldType.Extent(), order, dims, coords, |dims|)
    ensures LegalDims(Fast(order, dims)) && stOffsets == Starts(order, Fast(order, dims), Fast(order, coords))
  {
    var ndims, origExtent := |dims|, oldType.Extent();
    FastLegal(order, dims);
    ghost var m, starts := oldType.typemap, Starts(order, Fast(order, dims), Fast(order, coords));
    LayeredNone(m, origExtent, order, dims, coords);
    lastType := Duplicate(oldType);
    stOffsets := [];
    var step := if order.RowMajor? then -1 else 1;
    var i := if order.RowMajor? then ndims - 1 else 0;
    for k := 0 to ndims
      invariant i == DimAt(order, ndims, k) && lastType.Valid() && fresh(lastType)
      invariant Layered(lastType.typemap, lastType.Extent(), m, origExtent, order, dims, coords, k)
      invariant |stOffsets| == k && forall j :: 0 <= j < k ==> stOffsets[j] == starts[j]
    {
      var stOffset;
      lastType, stOffset := AddLayer(order, dims, coords, i, k, origExtent, lastType, m);
      stOffsets := stOffsets + [stOffset];
      i := i + step;
    }
  }

  method CreateDarray(size: nat, rank: nat, order: Order, dims: seq<Dim>, oldType: Datatype) returns (newType: Datatype)
    requires oldType.Valid() && LegalDims(dims)
    requires size == Volume(GridSizes(dims)) && rank < size
    ensures fresh(newType) && newType.Valid()
    ensures dims == [] ==> newType.typemap == []
    ensures dims != [] ==>
      && newType.typemap == Expand(oldType.typemap, DarrayOffsets(order, dims, GridCoords(dims, rank)),
                                   oldType.Extent())
      && newType.marks.bounded && newType.marks.lb == 0
      && newType.marks.ub == Volume(Sizes(Fast(order, dims))) * oldType.Extent()
  {
    if |dims| < 1 {
      newType := new Datatype();
      return;
    }
    var origExtent := oldType.Extent();
    var coords := ComputeCoords(size, rank, dims);
    CoordsOfRank(dims, rank);
    var lastType, stOffsets := BuildLayers(order, dims, coords, oldType);
    assert Sizes(Fast(order, dims))[..|dims|] == Sizes(Fast(order, dims));
    LaidAll(lastType.typemap, oldType.typemap, origExtent, order, dims, coords);
    var displ := LinearStart(order, Sizes(dims), stOffsets);
    var ub := ScaledStride(order, Sizes(dims), |dims|, origExtent);
    assert Fast(order, Sizes(dims)) == Sizes(Fast(order, dims));
    assert Fast(order, Sizes(dims))[..|dims|] == Fast(order, Sizes(dims));
    newType := Place(lastType, displ * origExtent, ub);
  }

  /** The element offset of the whole selection. */
  method LinearStart(order: Order, sizes: seq<nat>, stOffsets: seq<int>) returns (displ: int)
    requires |sizes| == |stOffsets| > 0
    ensures displ == Linear(Fast(order, sizes), stOffsets)
  {
    var n := |sizes|;
    var step := if order.RowMajor? then -1 else 1;
    var i := (if order.RowMajor? then n - 1 else 0) + step;
    var tmpSize := 1;
    displ := stOffsets[0];
    ghost var fast := Fast(order, sizes);
    LinearStep(fast, stOffsets, 0);
    assert Volume(fast[..0]) == 1 && displ == Linear(fast[..1], stOffsets[..1]);
    hide Volume, Linear;
    for k := 1 to n
      invariant i == DimAt(order, n, k)
      invariant tmpSize == Volume(fast[..k - 1]) && displ == Linear(fast[..k], stOffsets[..k])
    {
      VolumeStep(fast, k - 1);
      LinearStep(fast, stOffsets, k);
      tmpSize := tmpSize * sizes[i - step];
      displ := displ + tmpSize * stOffsets[k];
      i := i + step;
    }
    assert fast[..n] == fast && stOffsets[..n] == stOffsets;
  }
}
