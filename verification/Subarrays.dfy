/** Rectangular sub-arrays (MPI-3.1, section 4.1.3). */
module Subarrays {
  import opened Arithmetic
  import opened TypeMaps
  import opened Datatypes
  import opened Vectors
  import opened Grid

  datatype Dim = Dim(size: nat, subsize: nat, start: nat)

  /** What the MPI entry point checks before it builds the type. */
  predicate LegalDim(d: Dim) {
    1 <= d.subsize <= d.size && d.start <= d.size - d.subsize
  }

  function Sizes(dims: seq<Dim>): seq<nat> { seq(|dims|, k requires 0 <= k < |dims| => dims[k].size) }

  function Starts(dims: seq<Dim>): seq<int> { seq(|dims|, k requires 0 <= k < |dims| => dims[k].start) }

  /** The kept coordinates, counted from the start of the sub-array. */
  function Runs(dims: seq<Dim>): seq<seq<int>> { seq(|dims|, k requires 0 <= k < |dims| => Run(dims[k].subsize)) }

  /** Linear indices of the sub-array's elements; `dims` is in the user's order. */
  function SubarrayOffsets(order: Order, dims: seq<Dim>): seq<int> {
    var fast := Fast(order, dims);
    Offsets(Sizes(fast), Moved(Runs(fast), Starts(fast)))
  }

  lemma {:induction false} SizesPositive(dims: seq<Dim>)
    requires forall d :: d in dims ==> LegalDim(d)
    ensures Volume(Sizes(dims)) > 0
    decreases |dims|
  {
    if dims != [] {
      var n := |dims| - 1;
      SizesPositive(dims[..n]);
      assert Sizes(dims)[..n] == Sizes(dims[..n]);
      assert LegalDim(dims[n]);
      MulAtLeast(dims[n].size, Volume(Sizes(dims[..n])));
    }
  }

  /** The sub-array lists, in storage order, exactly the elements with
      start <= c < start + subsize along every dimension. */
  lemma SubarrayMeaning(order: Order, dims: seq<Dim>, e: int)
    requires forall d :: d in dims ==> LegalDim(d)
    ensures Increasing(SubarrayOffsets(order, dims))
    ensures var fast := Fast(order, dims);
      && Volume(Sizes(fast)) > 0
      && (e in SubarrayOffsets(order, dims)
          <==> 0 <= e < Volume(Sizes(fast))
               && forall k :: 0 <= k < |fast| ==>
                   fast[k].start <= Coord(Sizes(fast), e, k) < fast[k].start + fast[k].subsize)
  {
    var fast := Fast(order, dims);
    assert forall d :: d in fast ==> d in dims;
    SizesPositive(fast);
    var picks := Moved(Runs(fast), Starts(fast));
    forall k | 0 <= k < |fast| ensures Increasing(picks[k]) && Within(picks[k], Sizes(fast)[k]) {
      assert LegalDim(fast[k]);
    }
    OffsetsOrdered(Sizes(fast), picks);
    OffsetsMember(Sizes(fast), picks, e);
    if 0 <= e < Volume(Sizes(fast)) {
      forall k | 0 <= k < |fast|
        ensures Coord(Sizes(fast), e, k) in picks[k]
          <==> fast[k].start <= Coord(Sizes(fast), e, k) < fast[k].start + fast[k].subsize
      {
        RunMember(fast[k].subsize, fast[k].start, Coord(Sizes(fast), e, k));
      }
    }
  }

  lemma RunMember(count: nat, start: int, x: int)
    ensures x in OffsetBy(Run(count), start) <==> start <= x < start + count
  {
    if start <= x < start + count { assert OffsetBy(Run(count), start)[x - start] == x; }
  }

  /** The layout of the k fastest dimensions, counted from the start of the sub-array. */
  function Laid(m: TypeMap, extent: int, fast: seq<Dim>, k: nat): TypeMap
    requires k <= |fast|
  {
    Expand(m, Offsets(Sizes(fast)[..k], Runs(fast)[..k]), extent)
  }

  /** The third or a later dimension is the first with more than one element:
      its byte stride is the extent itself. */
  predicate LoneStride(fast: seq<Dim>, j: nat)
    requires j < |fast|
  {
    2 <= j && fast[j].subsize >= 2 && Volume(Sizes(fast)[..j]) == 1
  }

  /** That stride is -1, which Datatype.Add takes for the default extent, and
      aligning the type built so far has changed its extent. */
  predicate Misread(m: TypeMap, marks: Marks, fast: seq<Dim>, k: nat)
    requires k <= |fast|
  {
    && marks.Extent() == -1 && !marks.userUb && marks.align > 1 && m != []
    && exists j :: 0 <= j < k && LoneStride(fast, j)
  }

  predicate StartsAt(size: int, displ: int, fast: seq<Dim>, k: nat)
    requires k <= |fast|
  {
    size == Volume(Sizes(fast)[..k]) && displ == Linear(Sizes(fast)[..k], Starts(fast)[..k])
  }

  lemma StartsNext(size: int, displ: int, fast: seq<Dim>, k: nat)
    requires k < |fast| && StartsAt(size, displ, fast, k)
    ensures StartsAt(size * fast[k].size, displ + size * fast[k].start, fast, k + 1)
  {
    VolumeStep(Sizes(fast), k);
    LinearStep(Sizes(fast), Starts(fast), k);
  }

  /** Loop invariant: `size` is the volume of the k fastest dimensions and
      `displ` the linear index at which they start; they have been laid out,
      unless a stride was misread. */
  ghost predicate Built(built: TypeMap, builtMarks: Marks, size: int, displ: int, m: TypeMap, marks: Marks,
                        fast: seq<Dim>, k: nat) {
    && k <= |fast| && StartsAt(size, displ, fast, k)
    && |built| == |Laid(m, marks.Extent(), fast, k)| && (m == [] <==> built == [])
    && (built == Laid(m, marks.Extent(), fast, k) <==> !Misread(m, marks, fast, k))
    && (k >= 2 && size == 1 && marks.Extent() == -1 ==> builtMarks == BlockMarks(marks, 1))
  }

  /** One copy of a type of extent -1 has that extent too, unless it is aligned. */
  lemma OneCopyExtent(marks: Marks)
    requires marks.Extent() == -1 && marks.align > 0
    ensures BlockMarks(marks, 1).Extent() == -1 <==> marks.userUb || marks.align == 1
    ensures BlockMarks(BlockMarks(marks, 1), 1) == BlockMarks(marks, 1)
  {}

  lemma BuiltNone(m: TypeMap, marks: Marks, fast: seq<Dim>)
    ensures Built(m, marks, 1, 0, m, marks, fast, 0)
  {
    ExpandOne(m, marks.Extent());
  }

  lemma RepeatPrefix(a: TypeMap, count: nat, spacing: int)
    requires count > 0
    ensures |Repeat(a, count, 0, spacing)| >= |a| && Repeat(a, count, 0, spacing)[..|a|] == a
    decreases count
  {
    if count == 1 {
      RepeatOne(a, 0, spacing);
      ShiftZero(a);
    } else {
      RepeatPrefix(a, count - 1, spacing);
    }
  }

  /** Repeating loses nothing: different types stay different. */
  lemma RepeatCancel(a: TypeMap, b: TypeMap, count: nat, spacing: int)
    requires count > 0 && |a| == |b|
    ensures Repeat(a, count, 0, spacing) == Repeat(b, count, 0, spacing) <==> a == b
  {
    RepeatPrefix(a, count, spacing);
    RepeatPrefix(b, count, spacing);
  }

  lemma MisreadMore(m: TypeMap, marks: Marks, fast: seq<Dim>, k: nat)
    requires k < |fast|
    ensures Misread(m, marks, fast, k + 1)
      <==> (Misread(m, marks, fast, k)
            || (marks.Extent() == -1 && !marks.userUb && marks.align > 1 && m != [] && LoneStride(fast, k)))
  {}

  /** A dimension whose stride is honoured. */
  lemma BuiltMore(built: TypeMap, builtMarks: Marks, size: int, displ: int, m: TypeMap, marks: Marks, fast: seq<Dim>,
                  k: nat, next: Marks)
    requires Built(built, builtMarks, size, displ, m, marks, fast, k) && k < |fast| && LegalDim(fast[k])
    requires Misread(m, marks, fast, k + 1) <==> Misread(m, marks, fast, k)
    requires k >= 1 && size * fast[k].size == 1 && marks.Extent() == -1 ==> next == BlockMarks(marks, 1)
    ensures Built(Repeat(built, fast[k].subsize, 0, size * marks.Extent()), next, size * fast[k].size,
                  displ + size * fast[k].start,
                  m, marks, fast, k + 1)
  {
    assert size == Volume(Sizes(fast)[..k]);
    hide Laid, Misread, Repeat, Volume, Linear, Sizes, Starts, BlockMarks, StartsAt;
    StartsNext(size, displ, fast, k);
    LaidMore(built, m, marks.Extent(), fast, k, size * marks.Extent());
    if k >= 1 && size * fast[k].size == 1 && marks.Extent() == -1 { assert next == BlockMarks(marks, 1); }
  }

  lemma LaidMore(built: TypeMap, m: TypeMap, extent: int, fast: seq<Dim>, k: nat, spacing: int)
    requires k < |fast| && fast[k].subsize > 0 && |built| == |Laid(m, extent, fast, k)|
    requires spacing == Volume(Sizes(fast)[..k]) * extent
    ensures var next := Repeat(built, fast[k].subsize, 0, spacing);
      && |next| == |Laid(m, extent, fast, k + 1)| && (next == [] <==> built == [])
      && (next == Laid(m, extent, fast, k + 1) <==> built == Laid(m, extent, fast, k))
  {
    var count := fast[k].subsize;
    LayoutMore(m, extent, Sizes(fast), Runs(fast), count, k);
    RepeatCancel(built, Laid(m, extent, fast, k), count, spacing);
    RepeatLength(built, count, 0, spacing);
    RepeatLength(Laid(m, extent, fast, k), count, 0, spacing);
    RepeatPrefix(built, count, spacing);
  }

  lemma NoneMisread(m: TypeMap, marks: Marks, fast: seq<Dim>, k: nat)
    requires k <= 2 && k <= |fast|
    ensures !Misread(m, marks, fast, k)
  {}

  lemma LayoutMore(m: TypeMap, extent: int, sizes: seq<nat>, runs: seq<seq<int>>, subsize: nat, k: nat)
    requires k < |sizes| == |runs| && runs[k] == Run(subsize)
    ensures Repeat(Expand(m, Offsets(sizes[..k], runs[..k]), extent), subsize, 0, Volume(sizes[..k]) * extent)
         == Expand(m, Offsets(sizes[..k + 1], runs[..k + 1]), extent)
  {
    ExpandDimension(m, Offsets(sizes[..k], runs[..k]), extent, subsize, Volume(sizes[..k]));
    OffsetsSnoc(sizes, runs, k);
  }

  lemma VolumeOne(sizes: seq<nat>, k: nat)
    requires k <= |sizes| && Volume(sizes[..k]) == 1
    ensures forall j :: 0 <= j < k ==> sizes[j] == 1
    decreases k
  {
    if k > 0 {
      VolumeStep(sizes, k - 1);
      ProductOne(Volume(sizes[..k - 1]), sizes[k - 1]);
      VolumeOne(sizes, k - 1);
    }
  }

  lemma ProductOne(a: nat, b: nat)
    ensures a * b == 1 <==> a == 1 && b == 1
  {
    if a >= 2 && b >= 1 { assert a * b >= a * 1; }
    if b >= 2 && a >= 1 { assert a * b >= 1 * b; }
  }

  /** The dimension whose stride is misread. */
  lemma BuiltMisread(built: TypeMap, builtMarks: Marks, size: int, displ: int, m: TypeMap, marks: Marks, fast: seq<Dim>,
                     k: nat, next: TypeMap,
                     nextMarks: Marks, spacing: int)
    requires Built(built, builtMarks, size, displ, m, marks, fast, k) && 2 <= k < |fast|
    requires forall d :: d in fast ==> LegalDim(d)
    requires size == 1 && marks.Extent() == -1 && fast[k].subsize >= 2 && marks.align > 0
    requires m != [] && builtMarks.Extent() != -1
    requires next == Repeat(built, fast[k].subsize, 0, spacing) && next != Repeat(built, fast[k].subsize, 0, -1)
    ensures Built(next, nextMarks, size * fast[k].size, displ + size * fast[k].start, m, marks, fast, k + 1)
  {
    OneCopyExtent(marks);
    StartsNext(size, displ, fast, k);
    VolumeOne(Sizes(fast), k);
    assert forall j :: 0 <= j < k ==> fast[j] in fast && Sizes(fast)[j] == 1;
    assert LegalDim(fast[k]) && LoneStride(fast, k);
    MisreadMore(m, marks, fast, k);
    hide StartsAt, Linear, BlockMarks;
    LayoutMore(m, -1, Sizes(fast), Runs(fast), fast[k].subsize, k);
    RepeatLength(built, fast[k].subsize, 0, spacing);
    RepeatLength(built, fast[k].subsize, 0, -1);
    RepeatPrefix(built, fast[k].subsize, spacing);
  }

  lemma BuiltAll(built: TypeMap, builtMarks: Marks, size: int, displ: int, m: TypeMap, marks: Marks, order: Order,
                 dims: seq<Dim>)
    requires Built(built, builtMarks, size, displ, m, marks, Fast(order, dims), |dims|)
    ensures Shift(built, displ * marks.Extent()) == Expand(m, SubarrayOffsets(order, dims), marks.Extent())
      <==> !Misread(m, marks, Fast(order, dims), |dims|)
    ensures size == Volume(Sizes(Fast(order, dims)))
  {
    var fast, extent := Fast(order, dims), marks.Extent();
    assert Sizes(fast)[..|fast|] == Sizes(fast) && Runs(fast)[..|fast|] == Runs(fast);
    assert Starts(fast)[..|fast|] == Starts(fast);
    OffsetsMoved(Sizes(fast), Runs(fast), Starts(fast));
    ShiftExpand(m, Offsets(Sizes(fast), Runs(fast)), extent, displ);
    ShiftCancel(built, Laid(m, extent, fast, |fast|), displ * extent);
  }

  lemma ShiftCancel(a: TypeMap, b: TypeMap, d: int)
    ensures Shift(a, d) == Shift(b, d) <==> a == b
  {
    ShiftShift(a, d, -d);
    ShiftShift(b, d, -d);
    ShiftZero(a);
    ShiftZero(b);
  }

  lemma BuiltPositive(built: TypeMap, builtMarks: Marks, size: int, displ: int, m: TypeMap, marks: Marks, order: Order,
                      dims: seq<Dim>, k: nat)
    requires forall d :: d in dims ==> LegalDim(d)
    requires Built(built, builtMarks, size, displ, m, marks, Fast(order, dims), k)
    ensures size > 0 && forall d :: d in Fast(order, dims) ==> LegalDim(d)
  {
    var fast := Fast(order, dims);
    assert forall d :: d in fast ==> d in dims;
    SizesPositive(fast);
    VolumePositive(Sizes(fast), k);
  }

  lemma StrideIsMinusOne(size: nat, extent: int)
    requires size > 0
    ensures size * extent == -1 <==> size == 1 && extent == -1
  {
    if extent >= 0 {
      assert size * extent >= 0;
    } else {
      assert size * (-extent) >= -extent && size * (-extent) >= size;
    }
  }

  /** The first two dimensions are one vector of the old type. */
  method CreateRows(dims: seq<Dim>, order: Order, oldType: Datatype) returns (lastType: Datatype, size: nat, displ: int)
    requires oldType.Valid()
    requires |dims| >= 2 && forall d :: d in dims ==> LegalDim(d)
    ensures fresh(lastType) && lastType.Valid()
    ensures Built(lastType.typemap, lastType.marks, size, displ, oldType.typemap, oldType.marks, Fast(order, dims), 2)
  {
    var step := if order.RowMajor? then -1 else 1;
    var i := if order.RowMajor? then |dims| - 1 else 0;
    ghost var fast := Fast(order, dims);
    assert fast[0] == dims[i] && fast[1] == dims[i + step];
    assert LegalDim(dims[i]) && LegalDim(dims[i + step]);
    StrideIsMinusOne(dims[i].size, oldType.Extent());
    lastType := CreateVector(dims[i + step].subsize, dims[i].subsize, dims[i].size, oldType);
    size := dims[i].size * dims[i + step].size;
    displ := dims[i].start + dims[i + step].start * dims[i].size;
    if size == 1 { ProductOne(dims[i].size, dims[i + step].size); }
    RowsBuilt(oldType.typemap, oldType.marks, fast, lastType.marks);
  }

  lemma RowsBuilt(m: TypeMap, marks: Marks, fast: seq<Dim>, next: Marks)
    requires |fast| >= 2 && LegalDim(fast[0]) && LegalDim(fast[1])
    requires fast[0].size * fast[1].size == 1 && marks.Extent() == -1 ==> next == BlockMarks(marks, 1)
    ensures Built(HVectorMap(m, fast[1].subsize, fast[0].subsize, marks.Extent() * fast[0].size, marks.Extent()), next,
                  fast[0].size * fast[1].size, fast[0].start + fast[1].start * fast[0].size, m, marks, fast, 2)
  {
    var extent := marks.Extent();
    NoneMisread(m, marks, fast, 0);
    NoneMisread(m, marks, fast, 1);
    NoneMisread(m, marks, fast, 2);
    BuiltNone(m, marks, fast);
    var row, size, start := Repeat(m, fast[0].subsize, 0, extent), fast[0].size, fast[0].start;
    assert HVectorMap(m, fast[1].subsize, fast[0].subsize, extent * size, extent)
        == Repeat(row, fast[1].subsize, 0, size * extent);
    hide Misread, Laid, Volume, Linear, Built, Repeat, HVectorMap, BlockMarks;
    BuiltMore(m, marks, 1, 0, m, marks, fast, 0, marks);
    assert 1 * extent == extent && 1 * size == size && 0 + 1 * start == start;
    assert Built(row, marks, size, start, m, marks, fast, 1);
    BuiltMore(row, marks, size, start, m, marks, fast, 1, next);
  }

  /** Every further dimension is a vector of what has been built. */
  method AddDimension(built: Datatype, dims: seq<Dim>, order: Order, i: int, size: nat, displ: int, extent: int,
                      ghost m: TypeMap, ghost marks: Marks, ghost k: nat)
    returns (lastType: Datatype, newSize: nat, newDispl: int)
    requires built.Valid() && extent == marks.Extent() && marks.align > 0 && forall d :: d in dims ==> LegalDim(d)
    requires 2 <= k < |dims| && i == DimAt(order, |dims|, k)
    requires Built(built.typemap, built.marks, size, displ, m, marks, Fast(order, dims), k)
    ensures fresh(lastType) && lastType.Valid()
    ensures Built(lastType.typemap, lastType.marks, newSize, newDispl, m, marks, Fast(order, dims), k + 1)
  {
    hide Built, Laid, Misread, Repeat, HVectorMap;
    lastType := CreateHVector(dims[i].subsize, 1, size * extent, built);
    newDispl := displ + size * dims[i].start;
    newSize := size * dims[i].size;
    DimensionAdded(built.typemap, built.marks, size, displ, m, marks, order, dims, k, lastType.typemap, lastType.marks);
  }

  lemma DimensionAdded(built: TypeMap, builtMarks: Marks, size: nat, displ: int, m: TypeMap, marks: Marks, order: Order,
                       dims: seq<Dim>,
                       k: nat, next: TypeMap, nextMarks: Marks)
    requires marks.align > 0 && forall d :: d in dims ==> LegalDim(d)
    requires 2 <= k < |dims| && Built(built, builtMarks, size, displ, m, marks, Fast(order, dims), k)
    requires var count, stride := Fast(order, dims)[k].subsize, size * marks.Extent();
      && next == StridedMap(built, builtMarks, count, 1, stride, builtMarks.Extent() == stride)
      && (next == HVectorMap(built, count, 1, stride, builtMarks.Extent())
          <==> StrideIsHonoured(built, count, 1, stride, builtMarks.Extent() == stride))
      && (count == 1 ==> nextMarks == BlockMarks(builtMarks, 1))
    ensures var d := Fast(order, dims)[k];
      Built(next, nextMarks, size * d.size, displ + size * d.start, m, marks, Fast(order, dims), k + 1)
  {
    var fast, extent := Fast(order, dims), marks.Extent();
    var d := fast[k];
    BuiltPositive(built, builtMarks, size, displ, m, marks, order, dims, k);
    assert LegalDim(d);
    StrideIsMinusOne(size, extent);
    UnitBlocks(built, d.subsize, size * extent, builtMarks.Extent());
    MisreadMore(m, marks, fast, k);
    if extent == -1 { OneCopyExtent(marks); }
    if StrideIsHonoured(built, d.subsize, 1, size * extent, builtMarks.Extent() == size * extent) {
      if size * d.size == 1 { ProductOne(size, d.size); }
      BuiltMore(built, builtMarks, size, displ, m, marks, fast, k, nextMarks);
    } else {
      BuiltMisread(built, builtMarks, size, displ, m, marks, fast, k, next, nextMarks, Spacing(builtMarks, -1));
    }
  }

  /** The sub-array type, laid out as the standard says unless a stride is misread. */
  method CreateSubarray(dims: seq<Dim>, order: Order, oldType: Datatype) returns (newType: Datatype)
    requires oldType.Valid() && forall d :: d in dims ==> LegalDim(d)
    ensures fresh(newType) && newType.Valid()
    ensures dims == [] ==> newType.typemap == [] && newType.marks.bounded && newType.marks.lb == newType.marks.ub == 0
    ensures dims != [] ==>
              (newType.typemap == Expand(oldType.typemap, SubarrayOffsets(order, dims), oldType.Extent())
               <==> !Misread(oldType.typemap, oldType.marks, Fast(order, dims), |dims|))
    ensures dims != [] ==>
              && newType.marks.bounded && newType.marks.lb == 0
              && newType.marks.ub == Volume(Sizes(Fast(order, dims))) * oldType.Extent()
  {
    var ndims, extent := |dims|, oldType.Extent();
    ghost var m, marks, fast := oldType.typemap, oldType.marks, Fast(order, dims);
    hide Built, Laid, Misread, Expand, Repeat, Volume;
    var lastType: Datatype;
    var size: nat, displ: int;
    if ndims == 0 {
      newType := DuplicateNull();
      return;
    } else if ndims == 1 {
      lastType := CreateContiguous(dims[0].subsize, oldType);
      size, displ := dims[0].size, dims[0].start;
      NoneMisread(m, marks, fast, 0);
      NoneMisread(m, marks, fast, 1);
      BuiltNone(m, marks, fast);
      BuiltMore(m, marks, 1, 0, m, marks, fast, 0, lastType.marks);
      assert 1 * extent == extent && 1 * size == size;
    } else {
      lastType, size, displ := CreateRows(dims, order, oldType);
      var step := if order.RowMajor? then -1 else 1;
      var i := (if order.RowMajor? then ndims - 1 else 0) + 2 * step;
      var endLoop := if order.RowMajor? then -1 else ndims;
      ghost var k := 2;
      while i != endLoop
        invariant 2 <= k <= ndims && i == DimAt(order, ndims, k)
        invariant lastType.Valid() && fresh(lastType)
        invariant Built(lastType.typemap, lastType.marks, size, displ, m, marks, fast, k)
        decreases ndims - k
      {
        lastType, size, displ := AddDimension(lastType, dims, order, i, size, displ, extent, m, marks, k);
        i, k := i + step, k + 1;
      }
    }
    BuiltAll(lastType.typemap, lastType.marks, size, displ, m, marks, order, dims);
    newType := Place(lastType, displ * extent, size * extent);
  }

  /** The smallest sub-array that is laid out wrongly: two of two elements in the
      third dimension, of a 4-byte aligned type resized to an extent of -1. */
  method MisreadSubarray() returns (t: Datatype, oldType: Datatype, dims: seq<Dim>)
    ensures fresh(t) && oldType.typemap == [Entry(0, 7)] && oldType.marks == Marks(true, 0, -1, false, false, 4)
    ensures dims == [Dim(2, 2, 0), Dim(1, 1, 0), Dim(1, 1, 0)]
    ensures t.typemap != Expand(oldType.typemap, SubarrayOffsets(RowMajor, dims), oldType.Extent())
  {
    oldType := new Datatype();
    oldType.typemap, oldType.marks := [Entry(0, 7)], Marks(true, 0, 4, false, false, 4);
    oldType.Resize(0, -1);
    dims := [Dim(2, 2, 0), Dim(1, 1, 0), Dim(1, 1, 0)];
    ghost var fast := Fast(RowMajor, dims);
    assert fast == [Dim(1, 1, 0), Dim(1, 1, 0), Dim(2, 2, 0)];
    assert Sizes(fast)[..2] == [1, 1] && [1, 1][..1] == [1] && [1][..0] == [];
    assert Volume([1]) == 1;
    assert LoneStride(fast, 2);
    t := CreateSubarray(dims, RowMajor, oldType);
  }
}
