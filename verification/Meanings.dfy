/** What a description means: the typemap its constructors stand for.  Packing
    and unpacking keep it. */
module Meanings {
  import opened Options
  import opened TypeMaps
  import opened Datatypes
  import opened Vectors
  import opened Merging
  import opened Grid
  import opened Descriptions
  import Subarrays
  import Darrays
  import DarrayTypes

  const ORDER_C := 0
  const DISTRIBUTE_BLOCK := 0
  const DISTRIBUTE_CYCLIC := 1

  /** A typemap with its bounds. */
  datatype Meaning = Meaning(typemap: TypeMap, marks: Marks)

  /** The bounds a constructor computes from its arguments and the bounds of the
      types it is applied to: a duplicate and a predefined type compute none. */
  type Bounds = (Combiner, seq<int>, seq<int>, seq<Marks>) -> Marks

  function Nat(x: int): nat { if x < 0 then 0 else x }

  function Nats(s: seq<int>): seq<nat> { seq(|s|, k requires 0 <= k < |s| => Nat(s[k])) }

  function OrderOf(code: int): Order { if code == ORDER_C then RowMajor else ColumnMajor }

  function Maps(ms: seq<Meaning>): seq<TypeMap> { seq(|ms|, k requires 0 <= k < |ms| => ms[k].typemap) }

  function Extents(ms: seq<Meaning>): seq<int> { seq(|ms|, k requires 0 <= k < |ms| => ms[k].marks.Extent()) }

  function AllMarks(ms: seq<Meaning>): seq<Marks> { seq(|ms|, k requires 0 <= k < |ms| => ms[k].marks) }

  // ----- the array constructors' arguments -----

  /** ndims, sizes, subsizes, starts, order. */
  function SubarrayDims(i: seq<int>): seq<Subarrays.Dim>
    requires |i| >= 1 && |i| == 3 * i[0] + 2
  {
    var n := i[0];
    seq(n, k requires 0 <= k < n => Subarrays.Dim(Nat(i[1 + k]), Nat(i[1 + n + k]), Nat(i[1 + 2 * n + k])))
  }

  function SubarrayLayout(i: seq<int>, m: TypeMap, extent: int): TypeMap
    requires |i| >= 1 && |i| == 3 * i[0] + 2
  {
    if i[0] == 0 then []
    else Expand(m, Subarrays.SubarrayOffsets(OrderOf(i[3 * i[0] + 1]), SubarrayDims(i)), extent)
  }

  function DistributionOf(code: int): Darrays.Distribution {
    if code == DISTRIBUTE_BLOCK then Darrays.Block
    else if code == DISTRIBUTE_CYCLIC then Darrays.Cyclic
    else Darrays.NotDistributed
  }

  /** size, rank, ndims, sizes, distributions, distribution arguments, grid, order. */
  function DarrayDims(i: seq<int>): seq<Darrays.Dim>
    requires |i| >= 3 && |i| == 4 * i[2] + 4
  {
    var n := i[2];
    seq(n, k requires 0 <= k < n =>
      Darrays.Dim(Nat(i[3 + k]), DistributionOf(i[3 + n + k]), i[3 + 2 * n + k], Nat(i[3 + 3 * n + k])))
  }

  /** Arguments that the MPI entry point refuses denote nothing. */
  function DarrayLayout(i: seq<int>, m: TypeMap, extent: int): TypeMap
    requires |i| >= 3 && |i| == 4 * i[2] + 4
  {
    var dims, order := DarrayDims(i), OrderOf(i[4 * i[2] + 3]);
    if dims == [] || !Darrays.LegalDims(dims) then []
    else
      DarrayTypes.Volumes(order, dims);
      Expand(m, DarrayTypes.DarrayOffsets(order, dims, DarrayTypes.GridCoords(dims, Nat(i[1]))), extent)
  }

  // ----- the meaning of a description -----

  /** The reference typemap of each constructor, from its recorded arguments. */
  function Layout(c: Combiner, i: seq<int>, a: seq<int>, ms: seq<Meaning>): TypeMap
    requires Arity(c, i) == Some((|i|, |a|, |ms|))
  {
    if c == CombStruct || c == CombStructInteger then StructMap(Maps(ms), Extents(ms), Nats(i[1..]), a)
    else
      var m, e := ms[0].typemap, ms[0].marks.Extent();
      match c
      case CombContiguous => Repeat(m, Nat(i[0]), 0, e)
      case CombVector => HVectorMap(m, Nat(i[0]), Nat(i[1]), e * i[2], e)
      case CombHVectorInteger => HVectorMap(m, Nat(i[0]), Nat(i[1]), a[0], e)
      case CombHVector => HVectorMap(m, Nat(i[0]), Nat(i[1]), a[0], e)
      case CombIndexed => BlocksMap(m, Nats(i[1..1 + i[0]]), Scale(i[1 + i[0]..], e), e)
      case CombHIndexedInteger => BlocksMap(m, Nats(i[1..]), a, e)
      case CombHIndexed => BlocksMap(m, Nats(i[1..]), a, e)
      case CombIndexedBlock => if i[0] < 0 then [] else BlocksMap(m, Same(i[0], Nat(i[1])), Scale(i[2..], e), e)
      case CombHIndexedBlock => BlocksMap(m, Same(|a|, Nat(i[1])), a, e)
      case CombSubarray => SubarrayLayout(i, m, e)
      case CombDarray => DarrayLayout(i, m, e)
      case _ => m
  }

  /** What a description denotes, given the predefined types and the way bounds
      are computed.  The constructors' Fortran bindings with integer arguments
      call the same constructor. */
  function Denotes(t: Desc, basic: nat -> Meaning, bounds: Bounds): Meaning
    requires WellFormed(t)
    decreases t, 1
  {
    match t
    case Named(id) => basic(id)
    case Derived(c, i, a, d) =>
      var ms := DenotesAll(d, basic, bounds);
      if c == CombDup then ms[0] else Meaning(Layout(c, i, a, ms), bounds(Recorded(c), i, a, AllMarks(ms)))
  }

  function DenotesAll(ds: seq<Desc>, basic: nat -> Meaning, bounds: Bounds): (r: seq<Meaning>)
    requires AllWellFormed(ds)
    ensures |r| == |ds|
    decreases ds, 0
  {
    if ds == [] then [] else [Denotes(ds[0], basic, bounds)] + DenotesAll(ds[1..], basic, bounds)
  }

  // ----- normalising keeps the meaning -----

  lemma LayoutAsRecorded(c: Combiner, i: seq<int>, a: seq<int>, ms: seq<Meaning>)
    requires Arity(c, i) == Some((|i|, |a|, |ms|))
    ensures Arity(Recorded(c), i) == Arity(c, i) && Layout(Recorded(c), i, a, ms) == Layout(c, i, a, ms)
  {}

  /** Replacing duplicates and integer variants keeps the typemap and the bounds. */
  lemma {:induction false} NormalDenotesTheSame(t: Desc, basic: nat -> Meaning, bounds: Bounds)
    requires WellFormed(t)
    ensures WellFormed(Normal(t)) && Denotes(Normal(t), basic, bounds) == Denotes(t, basic, bounds)
    decreases t, 1
  {
    NormalIsPlain(t);
    if t.Derived? {
      if t.combiner == CombDup {
        NormalDenotesTheSame(t.d[0], basic, bounds);
      } else {
        AllNormalDenoteTheSame(t.d, basic, bounds);
        LayoutAsRecorded(t.combiner, t.i, t.a, DenotesAll(t.d, basic, bounds));
        hide Plain, Layout;
      }
    }
  }

  lemma {:induction false} AllNormalDenoteTheSame(ds: seq<Desc>, basic: nat -> Meaning, bounds: Bounds)
    requires AllWellFormed(ds)
    ensures AllWellFormed(NormalAll(ds)) && DenotesAll(NormalAll(ds), basic, bounds) == DenotesAll(ds, basic, bounds)
    decreases ds, 0
  {
    if ds != [] {
      NormalDenotesTheSame(ds[0], basic, bounds);
      AllNormalDenoteTheSame(ds[1..], basic, bounds);
    }
  }

  /** The datatype that a receiver rebuilds has the typemap and the bounds of
      the one the sender packed. */
  lemma RebuiltDenotesTheSame(t: Desc, tail: seq<int>, basic: nat -> Meaning, bounds: Bounds)
    requires WellFormed(t)
    ensures var r := Unpack(Pack(t, MAX_PREDEFINED).0 + tail);
      && r.Some? && r.value.1 == tail && WellFormed(r.value.0)
      && Denotes(r.value.0, basic, bounds) == Denotes(t, basic, bounds)
  {
    RoundTrip(t, MAX_PREDEFINED, tail);
    NormalDenotesTheSame(t, basic, bounds);
  }
}
