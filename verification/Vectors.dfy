/** The strided constructors and their special-cased layouts. */
module Vectors {
  import opened TypeMaps
  import opened Datatypes

  /** MPI-3.1, section 4.1.2: `count` blocks of `blockLength` copies of the old
      type, the starts of the blocks `stride` bytes apart. */
  function HVectorMap(m: TypeMap, count: nat, blockLength: nat, stride: int, extent: int): TypeMap {
    Repeat(Repeat(m, blockLength, 0, extent), count, 0, stride)
  }

  /** Item i of copy j of block b, spelled out position by position. */
  lemma HVectorMapAt(m: TypeMap, count: nat, blockLength: nat, stride: int, extent: int, b: nat, j: nat, i: nat)
    requires b < count && j < blockLength && i < |m|
    ensures 0 <= b * (blockLength * |m|) + (j * |m| + i) < |HVectorMap(m, count, blockLength, stride, extent)|
    ensures HVectorMap(m, count, blockLength, stride, extent)[b * (blockLength * |m|) + (j * |m| + i)]
         == Entry(m[i].disp + b * stride + j * extent, m[i].basic)
  {
    RepeatAt(m, blockLength, 0, extent, j, i);
    RepeatAt(Repeat(m, blockLength, 0, extent), count, 0, stride, b, j * |m| + i);
  }

  lemma {:induction false} RepeatNested(m: TypeMap, count: nat, blockLength: nat, extent: int)
    ensures Repeat(m, count * blockLength, 0, extent) == HVectorMap(m, count, blockLength, blockLength * extent, extent)
  {
    if count > 0 {
      var done := (count - 1) * blockLength;
      RepeatNested(m, count - 1, blockLength, extent);
      assert count * blockLength == done + blockLength;
      RepeatSplit(m, done, blockLength, 0, extent);
      assert done * extent == (count - 1) * (blockLength * extent);
      ShiftRepeat(m, blockLength, 0, extent, done * extent);
    }
  }

  lemma RepeatDiffers(m: TypeMap, count: nat, e1: int, e2: int)
    requires count >= 2 && m != []
    ensures Repeat(m, count, 0, e1) == Repeat(m, count, 0, e2) <==> e1 == e2
  {
    RepeatAt(m, count, 0, e1, 1, 0);
    RepeatAt(m, count, 0, e2, 1, 0);
  }

  /** Two or more copies never span an extent of -1. */
  lemma BlockExtent(marks: Marks, blockLength: nat)
    requires blockLength >= 2
    ensures AddMarks(NEW_MARKS, marks, blockLength, 0, marks.Extent()).Extent() != -1
  {
    var e := marks.Extent();
    if e >= 0 {
      assert e * (blockLength - 1) >= 0;
    } else {
      assert (-e) * (blockLength - 1) >= -e;
      assert e * (blockLength - 1) <= e;
    }
  }

  /** The layout chosen by both strided constructors, for a stride in bytes;
      `contiguous` is their own test that the blocks follow each other. */
  function StridedMap(m: TypeMap, marks: Marks, count: nat, blockLength: nat, stride: int, contiguous: bool): TypeMap {
    if count == 0 then []
    else if contiguous || count <= 1 then Repeat(m, count * blockLength, 0, marks.Extent())
    else if blockLength == 1 then Repeat(m, count, 0, Spacing(marks, stride))
    else Repeat(Repeat(m, blockLength, 0, marks.Extent()), count, 0, Spacing(BlockMarks(marks, blockLength), stride))
  }

  function BlockMarks(marks: Marks, blockLength: nat): Marks {
    AddedTo(NEW_MARKS, marks, blockLength, 0, marks.Extent())
  }

  /** The condition under which the strided layouts are those of the standard. */
  predicate StrideIsHonoured(m: TypeMap, count: nat, blockLength: nat, stride: int, contiguous: bool) {
    stride != -1 || count < 2 || blockLength == 0 || m == [] || contiguous
  }

  lemma ContiguousLayout(m: TypeMap, marks: Marks, count: nat, blockLength: nat, stride: int, contiguous: bool)
    requires contiguous ==> stride == blockLength * marks.Extent()
    requires contiguous || count <= 1
    ensures StridedMap(m, marks, count, blockLength, stride, contiguous)
         == HVectorMap(m, count, blockLength, stride, marks.Extent())
  {
    RepeatNested(m, count, blockLength, marks.Extent());
    if count == 1 {
      RepeatOne(Repeat(m, blockLength, 0, marks.Extent()), 0, stride);
      RepeatOne(Repeat(m, blockLength, 0, marks.Extent()), 0, blockLength * marks.Extent());
    }
  }

  lemma BlocksLayout(block: TypeMap, count: nat, spacing: int, stride: int)
    requires count >= 2
    ensures Repeat(block, count, 0, spacing) == Repeat(block, count, 0, stride) <==> block == [] || spacing == stride
  {
    if block == [] {
      RepeatEmpty(count, 0, spacing);
      RepeatEmpty(count, 0, stride);
    } else {
      RepeatDiffers(block, count, spacing, stride);
    }
  }

  lemma StridedExact(m: TypeMap, marks: Marks, count: nat, blockLength: nat, stride: int, contiguous: bool)
    requires contiguous ==> stride == blockLength * marks.Extent()
    requires blockLength == 1 && marks.Extent() == stride == -1 ==> contiguous
    ensures StridedMap(m, marks, count, blockLength, stride, contiguous)
         == HVectorMap(m, count, blockLength, stride, marks.Extent())
      <==> StrideIsHonoured(m, count, blockLength, stride, contiguous)
  {
    var block := Repeat(m, blockLength, 0, marks.Extent());
    if contiguous || count <= 1 {
      ContiguousLayout(m, marks, count, blockLength, stride, contiguous);
    } else if blockLength == 1 {
      RepeatOne(m, 0, marks.Extent());
      ShiftZero(m);
      assert block == m;
      BlocksLayout(m, count, Spacing(marks, stride), stride);
    } else {
      RepeatLength(m, blockLength, 0, marks.Extent());
      assert block == [] <==> blockLength == 0 || m == [];
      BlocksLayout(block, count, Spacing(BlockMarks(marks, blockLength), stride), stride);
      if blockLength > 0 { BlockExtent(marks, blockLength); }
    }
  }

  /** The edges of a strided vector, by the branch that was taken. */
  lemma StridedSpans(n: Marks, block: Marks, m: Marks, count: nat, blockLength: nat, stride: int, contiguous: bool)
    requires Natural(m) && m.align > 0 && count > 0 && block.align > 0
    requires block == BlockMarks(m, blockLength)
    requires n == (if contiguous || count <= 1 then AddedTo(NEW_MARKS, m, count * blockLength, 0, m.Extent())
                   else if blockLength == 1 then AddedTo(NEW_MARKS, m, count, 0, Spacing(m, stride))
                   else AddedTo(NEW_MARKS, block, count, 0, Spacing(block, stride)))
    ensures Spans(n, StridedMap(Edges(m), m, count, blockLength, stride, contiguous))
  {
    if contiguous || count <= 1 {
      AddedToSpans(NEW_MARKS, m, count * blockLength, 0, m.Extent(), []);
      assert [] + Repeat(Edges(m), count * blockLength, 0, m.Extent())
          == Repeat(Edges(m), count * blockLength, 0, m.Extent());
    } else if blockLength == 1 {
      AddedToSpans(NEW_MARKS, m, count, 0, Spacing(m, stride), []);
      assert [] + Repeat(Edges(m), count, 0, Spacing(m, stride)) == Repeat(Edges(m), count, 0, Spacing(m, stride));
    } else {
      var inner := Repeat(Edges(m), blockLength, 0, m.Extent());
      AddedToSpans(NEW_MARKS, m, blockLength, 0, m.Extent(), []);
      assert [] + inner == inner;
      AddedToSpans(NEW_MARKS, block, count, 0, Spacing(block, stride), []);
      assert [] + Repeat(Edges(block), count, 0, Spacing(block, stride))
          == Repeat(Edges(block), count, 0, Spacing(block, stride));
      SpansNested(n, block, inner, count, 0, Spacing(block, stride));
    }
  }

  /** The byte-strided vector is laid out as the standard says, except that a
      byte stride of -1 is taken for "default extent" by Datatype.Add. */
  method CreateHVector(count: nat, blockLength: nat, stride: int, oldType: Datatype) returns (newType: Datatype)
    requires oldType.Valid()
    ensures fresh(newType) && newType.Valid()
    ensures newType.typemap == HVectorMap(oldType.typemap, count, blockLength, stride, oldType.Extent())
      <==> StrideIsHonoured(oldType.typemap, count, blockLength, stride, blockLength * oldType.Extent() == stride)
    ensures newType.typemap
      == StridedMap(oldType.typemap, oldType.marks, count, blockLength, stride,
                    blockLength * oldType.Extent() == stride)
    ensures count == blockLength == 1 ==> newType.marks == BlockMarks(oldType.marks, 1)
    ensures Natural(oldType.marks) ==>
      Spans(newType.marks, StridedMap(Edges(oldType.marks), oldType.marks, count, blockLength, stride,
                                      blockLength * oldType.Extent() == stride))
  {
    newType := new Datatype();
    var extent := oldType.Extent();
    StridedExact(oldType.typemap, oldType.marks, count, blockLength, stride, extent * blockLength == stride);
    if count == 0 { return; }
    if extent * blockLength == stride || count <= 1 {
      newType.Add(oldType, count * blockLength, 0, extent);
    } else if blockLength == 1 {
      newType.Add(oldType, count, 0, stride);
    } else {
      var block := new Datatype();
      block.Add(oldType, blockLength, 0, extent);
      assert block.typemap == Repeat(oldType.typemap, blockLength, 0, extent);
      newType.Add(block, count, 0, stride);
    }
    assert newType.typemap == StridedMap(oldType.typemap, oldType.marks, count, blockLength, stride,
                                         extent * blockLength == stride);
    if Natural(oldType.marks) {
      StridedSpans(newType.marks, BlockMarks(oldType.marks, blockLength), oldType.marks, count, blockLength, stride,
                   extent * blockLength == stride);
    }
  }

  /** The element-strided vector, with the same exception. */
  method CreateVector(count: nat, blockLength: nat, stride: int, oldType: Datatype) returns (newType: Datatype)
    requires oldType.Valid()
    ensures fresh(newType) && newType.Valid()
    ensures newType.typemap == HVectorMap(oldType.typemap, count, blockLength, oldType.Extent() * stride,
                                          oldType.Extent())
      <==> StrideIsHonoured(oldType.typemap, count, blockLength, oldType.Extent() * stride, blockLength == stride)
    ensures count == blockLength == 1 ==> newType.marks == BlockMarks(oldType.marks, 1)
    ensures Natural(oldType.marks) ==>
      Spans(newType.marks, StridedMap(Edges(oldType.marks), oldType.marks, count, blockLength,
                                      oldType.Extent() * stride, blockLength == stride))
  {
    newType := new Datatype();
    var extent := oldType.Extent();
    StridedExact(oldType.typemap, oldType.marks, count, blockLength, extent * stride, blockLength == stride);
    if count == 0 { return; }
    if blockLength == stride || count <= 1 {
      newType.Add(oldType, count * blockLength, 0, extent);
    } else if blockLength == 1 {
      newType.Add(oldType, count, 0, extent * stride);
    } else {
      var block := new Datatype();
      block.Add(oldType, blockLength, 0, extent);
      assert block.typemap == Repeat(oldType.typemap, blockLength, 0, extent);
      newType.Add(block, count, 0, extent * stride);
    }
    assert newType.typemap == StridedMap(oldType.typemap, oldType.marks, count, blockLength, extent * stride,
                                         blockLength == stride);
    if Natural(oldType.marks) {
      StridedSpans(newType.marks, BlockMarks(oldType.marks, blockLength), oldType.marks, count, blockLength,
                   extent * stride, blockLength == stride);
    }
  }

  /** Blocks of one element: the stride alone matters. */
  lemma UnitBlocks(m: TypeMap, count: nat, stride: int, extent: int)
    ensures HVectorMap(m, count, 1, stride, extent) == Repeat(m, count, 0, stride)
  {
    RepeatOne(m, 0, extent);
    ShiftZero(m);
  }

  /** A byte stride of -1 at work: the second element of this vector should be
      one byte before the first and ends up four bytes behind it. */
  method StrideMinusOne() returns (t: Datatype)
    ensures fresh(t) && t.typemap == [Entry(0, 7), Entry(4, 7)]
    ensures HVectorMap([Entry(0, 7)], 2, 1, -1, 4) == [Entry(0, 7), Entry(-1, 7)]
  {
    var basic := new Datatype();
    basic.typemap, basic.marks := [Entry(0, 7)], Marks(true, 0, 4, false, false, 4);
    t := CreateHVector(2, 1, -1, basic);
    UnitBlocks([Entry(0, 7)], 2, -1, 4);
  }
}
