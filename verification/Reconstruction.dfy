/** Calling the constructor that a description names: what it builds is what
    the description denotes. */
module Reconstruction {
  import opened Options
  import opened TypeMaps
  import opened Datatypes
  import opened Vectors
  import opened Merging
  import opened Grid
  import opened Descriptions
  import opened Meanings
  import Subarrays
  import Darrays
  import DarrayTypes

  ghost function MeaningsOf(d: seq<Datatype>): (r: seq<Meaning>)
    reads d
    ensures |r| == |d| && forall k :: 0 <= k < |d| ==> r[k] == Meaning(d[k].typemap, d[k].marks)
  {
    seq(|d|, k requires 0 <= k < |d| reads d => Meaning(d[k].typemap, d[k].marks))
  }

  predicate NoneNegative(s: seq<int>) { forall k :: 0 <= k < |s| ==> s[k] >= 0 }

  function Naturals(s: seq<int>): (r: seq<nat>)
    requires NoneNegative(s)
    ensures r == s && r == Nats(s)
  {
    s
  }

  /** Arguments that a constructor accepts and can have recorded. */
  predicate Sensible(c: Combiner, i: seq<int>, a: seq<int>, types: nat) {
    && Arity(c, i) == Some((|i|, |a|, types)) && c != CombDup
    && match c
       case CombContiguous => i[0] >= 0
       case CombVector => i[0] >= 0 && i[1] >= 0
       case CombHVectorInteger => i[0] >= 0 && i[1] >= 0
       case CombHVector => i[0] >= 0 && i[1] >= 0
       case CombIndexed => NoneNegative(i[1..1 + i[0]])
       case CombHIndexedInteger => NoneNegative(i[1..])
       case CombHIndexed => NoneNegative(i[1..])
       case CombIndexedBlock => i[0] >= 0 && i[1] >= 0
       case CombStructInteger => NoneNegative(i[1..])
       case CombStruct => NoneNegative(i[1..])
       case CombSubarray => NoneNegative(i[..|i| - 1]) && forall d :: d in SubarrayDims(i) ==> Subarrays.LegalDim(d)
       case CombDarray =>
         && NoneNegative(i[3..3 + i[2]]) && NoneNegative(i[3 + 3 * i[2]..3 + 4 * i[2]])
         && Darrays.LegalDims(DarrayDims(i)) && 0 <= i[1] < i[0] == Volume(DarrayTypes.GridSizes(DarrayDims(i)))
       case CombHIndexedBlock => i[1] >= 0
       case _ => true
  }

  /** The condition under which the constructor lays out what is asked for. */
  predicate Honoured(c: Combiner, i: seq<int>, a: seq<int>, ms: seq<Meaning>)
    requires Sensible(c, i, a, |ms|)
  {
    if |ms| == 0 then true
    else
      var m, e := ms[0].typemap, ms[0].marks.Extent();
      match c
      case CombVector => StrideIsHonoured(m, i[0], i[1], e * i[2], i[1] == i[2])
      case CombHVectorInteger => StrideIsHonoured(m, i[0], i[1], a[0], i[1] * e == a[0])
      case CombHVector => StrideIsHonoured(m, i[0], i[1], a[0], i[1] * e == a[0])
      case CombHIndexedBlock => e == 1 || i[1] == 0 || m == [] || !FalseNeighbours(i[1], a)
      case CombSubarray =>
        i[0] == 0
        || !Subarrays.Misread(m, ms[0].marks, Fast(OrderOf(i[|i| - 1]), SubarrayDims(i)), |SubarrayDims(i)|)
      case _ => true
  }

  /** ndims, then the sizes, the subsizes and the starts, then the order. */
  function ReadSubarray(i: seq<int>, ghost a: seq<int>): seq<Subarrays.Dim>
    requires Sensible(CombSubarray, i, a, 1)
  {
    var n := i[0];
    var front := i[..|i| - 1];
    assert forall k :: 0 <= k < |front| ==> front[k] == i[k] >= 0;
    var sizes, subsizes := Naturals(i[1..1 + n]), Naturals(i[1 + n..1 + 2 * n]);
    var starts := Naturals(i[1 + 2 * n..1 + 3 * n]);
    seq(n, k requires 0 <= k < n => Subarrays.Dim(sizes[k], subsizes[k], starts[k]))
  }

  lemma ReadsSubarray(i: seq<int>, a: seq<int>)
    requires Sensible(CombSubarray, i, a, 1)
    ensures ReadSubarray(i, a) == SubarrayDims(i) && forall d :: d in ReadSubarray(i, a) ==> Subarrays.LegalDim(d)
  {
    assert forall k :: 0 <= k < |i| - 1 ==> i[..|i| - 1][k] == i[k] >= 0;
  }

  lemma SubarrayAsked(i: seq<int>, a: seq<int>, m: Meaning)
    requires Sensible(CombSubarray, i, a, 1)
    ensures var (dims, order) := (ReadSubarray(i, a), if i[1 + 3 * i[0]] == 0 then RowMajor else ColumnMajor);
      && (dims == [] ==> SubarrayLayout(i, m.typemap, m.marks.Extent()) == [])
      && (dims != [] ==>
            SubarrayLayout(i, m.typemap, m.marks.Extent()) ==
            Expand(m.typemap, Subarrays.SubarrayOffsets(order, dims), m.marks.Extent()))
      && (Honoured(CombSubarray, i, a, [m]) <==>
            (dims == [] || !Subarrays.Misread(m.typemap, m.marks, Fast(order, dims), |dims|)))
  {
    ReadsSubarray(i, a);
    assert OrderOf(i[|i| - 1]) == if i[1 + 3 * i[0]] == 0 then RowMajor else ColumnMajor;
    hide ReadSubarray, SubarrayDims, OrderOf, Subarrays.Misread, Subarrays.SubarrayOffsets, Expand, Fast;
  }

  method CreateFromSubarray(i: seq<int>, oldType: Datatype, ghost a: seq<int>) returns (t: Datatype)
    requires Sensible(CombSubarray, i, a, 1) && oldType.Valid()
    ensures fresh(t) && t.Valid()
    ensures t.typemap == SubarrayLayout(i, oldType.typemap, oldType.Extent()) <==>
        Honoured(CombSubarray, i, a, [Meaning(oldType.typemap, oldType.marks)])
  {
    var dims, order := ReadSubarray(i, a), if i[1 + 3 * i[0]] == 0 then RowMajor else ColumnMajor;
    ghost var m := Meaning(oldType.typemap, oldType.marks);
    assert forall d :: d in dims ==> Subarrays.LegalDim(d) by { ReadsSubarray(i, a); }
    SubarrayAsked(i, a, m);
    assert oldType.Extent() == m.marks.Extent();
    hide *;
    t := Subarrays.CreateSubarray(dims, order, oldType);
  }

  predicate Strided(c: Combiner) {
    c in {CombContiguous, CombVector, CombHVectorInteger, CombHVector}
  }

  method CreateStrided(c: Combiner, i: seq<int>, a: seq<int>, oldType: Datatype, ghost m: Meaning) returns (t: Datatype)
    requires Sensible(c, i, a, 1) && Strided(c)
    requires oldType.Valid() && m == Meaning(oldType.typemap, oldType.marks)
    ensures fresh(t) && t.Valid() && (t.typemap == Layout(c, i, a, [m]) <==> Honoured(c, i, a, [m]))
  {
    match c
    case CombContiguous => t := CreateContiguous(i[0], oldType);
    case CombVector => t := CreateVector(i[0], i[1], i[2], oldType);
    case CombHVectorInteger => t := CreateHVector(i[0], i[1], a[0], oldType);
    case CombHVector => t := CreateHVector(i[0], i[1], a[0], oldType);
  }

  predicate Indexed(c: Combiner) {
    c in {CombIndexed, CombHIndexedInteger, CombHIndexed, CombIndexedBlock, CombHIndexedBlock}
  }

  method CreateBlocks(c: Combiner, i: seq<int>, a: seq<int>, oldType: Datatype, ghost m: Meaning) returns (t: Datatype)
    requires Sensible(c, i, a, 1) && Indexed(c)
    requires oldType.Valid() && m == Meaning(oldType.typemap, oldType.marks)
    ensures fresh(t) && t.Valid() && (t.typemap == Layout(c, i, a, [m]) <==> Honoured(c, i, a, [m]))
  {
    match c
    case CombIndexed => t := CreateIndexed(i[0], Naturals(i[1..1 + i[0]]), i[1 + i[0]..], oldType);
    case CombHIndexedInteger => t := CreateHIndexed(i[0], Naturals(i[1..]), a, oldType);
    case CombHIndexed => t := CreateHIndexed(i[0], Naturals(i[1..]), a, oldType);
    case CombIndexedBlock => t := CreateIndexedBlock(i[0], i[1], i[2..], oldType);
    case CombHIndexedBlock => t := CreateHIndexedBlock(i[0], i[1], a, oldType);
  }

  method CreateFromStruct(c: Combiner, i: seq<int>, a: seq<int>, d: seq<Datatype>) returns (t: Datatype)
    requires Sensible(c, i, a, |d|) && (c == CombStruct || c == CombStructInteger) && forall x :: x in d ==> x.Valid()
    ensures fresh(t) && t.Valid() && t.typemap == Layout(c, i, a, MeaningsOf(d))
  {
    t := CreateStruct(i[0], Naturals(i[1..]), a, d);
    assert Merging.Maps(d) == Meanings.Maps(MeaningsOf(d)) && Merging.Extents(d) == Meanings.Extents(MeaningsOf(d));
  }

  /** The dimensions: sizes, distributions, distribution arguments, grid. */
  function ReadDarray(i: seq<int>, ghost a: seq<int>): (dims: seq<Darrays.Dim>)
    requires Sensible(CombDarray, i, a, 1)
  {
    var n := i[2];
    var sizes, grid := Naturals(i[3..3 + n]), Naturals(i[3 + 3 * n..3 + 4 * n]);
    var kinds, args := i[3 + n..3 + 2 * n], i[3 + 2 * n..3 + 3 * n];
    seq(n, k requires 0 <= k < n => Darrays.Dim(sizes[k], KindOf(kinds[k]), args[k], grid[k]))
  }

  lemma ReadsDarray(i: seq<int>, a: seq<int>)
    requires Sensible(CombDarray, i, a, 1)
    ensures ReadDarray(i, a) == DarrayDims(i)
  {}

  lemma DarrayAsked(i: seq<int>, a: seq<int>, m: TypeMap, extent: int)
    requires Sensible(CombDarray, i, a, 1)
    ensures var (dims, order) := (ReadDarray(i, a), if i[3 + 4 * i[2]] == 0 then RowMajor else ColumnMajor);
      && Darrays.LegalDims(dims) && 0 <= i[1] < i[0] == Volume(DarrayTypes.GridSizes(dims))
      && (dims == [] ==> DarrayLayout(i, m, extent) == [])
      && (dims != [] ==>
            DarrayLayout(i, m, extent) ==
            Expand(m, DarrayTypes.DarrayOffsets(order, dims, DarrayTypes.GridCoords(dims, i[1])), extent))
  {
    ReadsDarray(i, a);
    hide Expand, DarrayTypes.DarrayOffsets, DarrayTypes.GridCoords, ReadDarray, DarrayDims;
  }

  method CreateFromDarray(i: seq<int>, oldType: Datatype, ghost a: seq<int>) returns (t: Datatype)
    requires Sensible(CombDarray, i, a, 1) && oldType.Valid()
    ensures fresh(t) && t.Valid() && t.typemap == DarrayLayout(i, oldType.typemap, oldType.Extent())
  {
    DarrayAsked(i, a, oldType.typemap, oldType.Extent());
    var n := i[2];
    assert |i| == 4 * n + 4;
    hide *;
    t := DarrayTypes.CreateDarray(i[0], i[1], if i[3 + 4 * n] == 0 then RowMajor else ColumnMajor, ReadDarray(i, a),
                                  oldType);
  }

  /** The constructor's own case distinction. */
  function KindOf(code: int): Darrays.Distribution {
    match code
    case 0 => Darrays.Block
    case 1 => Darrays.Cyclic
    case _ => Darrays.NotDistributed
  }

  /** Every constructor builds the layout of its combiner, exactly under the
      conditions of the strided, the byte-displaced and the array constructors. */
  method Construct(c: Combiner, i: seq<int>, a: seq<int>, d: seq<Datatype>) returns (t: Datatype)
    requires Sensible(c, i, a, |d|) && forall x :: x in d ==> x.Valid()
    ensures fresh(t) && t.Valid()
    ensures t.typemap == Layout(c, i, a, MeaningsOf(d)) <==> Honoured(c, i, a, MeaningsOf(d))
    ensures c == CombResized ==> t.marks.bounded && t.marks.lb == a[0] && t.marks.ub - t.marks.lb == a[1]
  {
    ghost var ms := MeaningsOf(d);
    assert |d| == 1 ==> ms == [ms[0]];
    if c == CombStruct || c == CombStructInteger {
      t := CreateFromStruct(c, i, a, d);
    } else if Strided(c) {
      t := CreateStrided(c, i, a, d[0], ms[0]);
    } else if Indexed(c) {
      t := CreateBlocks(c, i, a, d[0], ms[0]);
    } else if c == CombSubarray {
      t := CreateFromSubarray(i, d[0], a);
    } else if c == CombDarray {
      t := CreateFromDarray(i, d[0], a);
    } else {
      t := Duplicate(d[0]);
      t.Resize(a[0], a[1]);
    }
  }
}
