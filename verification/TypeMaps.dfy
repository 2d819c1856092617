/** Typemaps: what an MPI datatype denotes (MPI-3.1, section 4.1), and the
    algebra of shifting and replicating them that every constructor relies on. */
module TypeMaps {

  /** One basic item of a typemap and its byte displacement. */
  datatype Entry = Entry(disp: int, basic: nat)

  type TypeMap = seq<Entry>

  function Shift(m: TypeMap, d: int): TypeMap {
    seq(|m|, i requires 0 <= i < |m| => Entry(m[i].disp + d, m[i].basic))
  }

  /** `count` copies of `m`, the k-th one displaced by `disp + k * extent`. */
  function Repeat(m: TypeMap, count: nat, disp: int, extent: int): TypeMap {
    if count == 0 then [] else Repeat(m, count - 1, disp, extent) + Shift(m, disp + (count - 1) * extent)
  }

  /** One copy of `m` at every element offset of `offs`, in that order. */
  function Expand(m: TypeMap, offs: seq<int>, extent: int): TypeMap {
    if offs == [] then []
    else Expand(m, offs[..|offs| - 1], extent) + Shift(m, offs[|offs| - 1] * extent)
  }

  function OffsetBy(offs: seq<int>, d: int): seq<int> {
    seq(|offs|, i requires 0 <= i < |offs| => offs[i] + d)
  }

  function RepeatOffsets(offs: seq<int>, count: nat, disp: int, step: int): seq<int> {
    if count == 0 then [] else RepeatOffsets(offs, count - 1, disp, step) + OffsetBy(offs, disp + (count - 1) * step)
  }

  lemma ShiftShift(m: TypeMap, a: int, b: int)
    ensures Shift(Shift(m, a), b) == Shift(m, a + b)
  {}

  lemma ShiftConcat(m: TypeMap, n: TypeMap, d: int)
    ensures Shift(m + n, d) == Shift(m, d) + Shift(n, d)
  {}

  lemma ShiftZero(m: TypeMap)
    ensures Shift(m, 0) == m
  {}

  lemma RepeatOne(m: TypeMap, disp: int, extent: int)
    ensures Repeat(m, 1, disp, extent) == Shift(m, disp)
  {
    assert Repeat(m, 0, disp, extent) == [];
    assert disp + 0 * extent == disp;
  }

  lemma {:induction false} ShiftRepeat(m: TypeMap, count: nat, disp: int, extent: int, d: int)
    ensures Shift(Repeat(m, count, disp, extent), d) == Repeat(m, count, disp + d, extent)
  {
    if count > 0 {
      ShiftRepeat(m, count - 1, disp, extent, d);
      ShiftConcat(Repeat(m, count - 1, disp, extent), Shift(m, disp + (count - 1) * extent), d);
      ShiftShift(m, disp + (count - 1) * extent, d);
    }
  }

  /** Replication splits anywhere: what lets contiguous blocks be merged. */
  lemma {:induction false} RepeatSplit(m: TypeMap, a: nat, b: nat, disp: int, extent: int)
    ensures Repeat(m, a + b, disp, extent) == Repeat(m, a, disp, extent) + Repeat(m, b, disp + a * extent, extent)
    decreases b
  {
    if b > 0 {
      RepeatSplit(m, a, b - 1, disp, extent);
      assert disp + (a + b - 1) * extent == disp + a * extent + (b - 1) * extent;
      assert a + b - 1 == a + (b - 1);
    }
  }

  lemma {:induction false} RepeatEmpty(count: nat, disp: int, extent: int)
    ensures Repeat([], count, disp, extent) == []
  {
    if count > 0 { RepeatEmpty(count - 1, disp, extent); }
  }

  lemma {:induction false} RepeatLength(m: TypeMap, count: nat, disp: int, extent: int)
    ensures |Repeat(m, count, disp, extent)| == count * |m|
  {
    if count > 0 { RepeatLength(m, count - 1, disp, extent); }
  }

  /** The k-th copy of the i-th item sits where the definition puts it. */
  lemma {:induction false} RepeatAt(m: TypeMap, count: nat, disp: int, extent: int, k: nat, i: nat)
    requires k < count && i < |m|
    ensures |Repeat(m, count, disp, extent)| == count * |m|
    ensures 0 <= k * |m| + i < count * |m|
    ensures Repeat(m, count, disp, extent)[k * |m| + i] == Entry(m[i].disp + disp + k * extent, m[i].basic)
  {
    RepeatLength(m, count, disp, extent);
    RepeatLength(m, count - 1, disp, extent);
    if k < count - 1 {
      RepeatAt(m, count - 1, disp, extent, k, i);
    }
  }

  /** Item i of the copy at the k-th offset. */
  lemma {:induction false} ExpandAt(m: TypeMap, offs: seq<int>, extent: int, k: nat, i: nat)
    requires k < |offs| && i < |m|
    ensures |Expand(m, offs, extent)| == |offs| * |m|
    ensures 0 <= k * |m| + i < |offs| * |m|
    ensures Expand(m, offs, extent)[k * |m| + i] == Entry(m[i].disp + offs[k] * extent, m[i].basic)
    decreases |offs|
  {
    var n := |offs| - 1;
    ExpandLength(m, offs, extent);
    ExpandLength(m, offs[..n], extent);
    if k < n { ExpandAt(m, offs[..n], extent, k, i); }
  }

  lemma {:induction false} ExpandLength(m: TypeMap, offs: seq<int>, extent: int)
    ensures |Expand(m, offs, extent)| == |offs| * |m|
    decreases |offs|
  {
    if offs != [] { ExpandLength(m, offs[..|offs| - 1], extent); }
  }

  lemma {:induction false} ExpandConcat(m: TypeMap, a: seq<int>, b: seq<int>, extent: int)
    ensures Expand(m, a + b, extent) == Expand(m, a, extent) + Expand(m, b, extent)
    decreases |b|
  {
    if b == [] {
      assert a + b == a;
    } else {
      var n := |b| - 1;
      ExpandConcat(m, a, b[..n], extent);
      assert (a + b)[..|a + b| - 1] == a + b[..n];
    }
  }

  lemma {:induction false} ShiftExpand(m: TypeMap, offs: seq<int>, extent: int, d: int)
    ensures Shift(Expand(m, offs, extent), d * extent) == Expand(m, OffsetBy(offs, d), extent)
    decreases |offs|
  {
    if offs != [] {
      var n := |offs| - 1;
      ShiftExpand(m, offs[..n], extent, d);
      ShiftConcat(Expand(m, offs[..n], extent), Shift(m, offs[n] * extent), d * extent);
      ShiftShift(m, offs[n] * extent, d * extent);
      assert offs[n] * extent + d * extent == (offs[n] + d) * extent;
      assert OffsetBy(offs, d)[..n] == OffsetBy(offs[..n], d);
    }
  }

  lemma ScaleStep(disp: int, k: int, step: int, extent: int)
    ensures disp * extent + k * (step * extent) == (disp + k * step) * extent
  {
    assert k * (step * extent) == (k * step) * extent;
  }

  /** Replicating an expanded typemap is expanding the replicated offsets. */
  lemma {:induction false} RepeatExpand(m: TypeMap, offs: seq<int>, extent: int, count: nat, disp: int, step: int)
    ensures Repeat(Expand(m, offs, extent), count, disp * extent, step * extent)
         == Expand(m, RepeatOffsets(offs, count, disp, step), extent)
  {
    if count > 0 {
      var n := count - 1;
      var d, m1 := disp + n * step, Expand(m, offs, extent);
      var front := RepeatOffsets(offs, n, disp, step);
      assert Repeat(m1, count, disp * extent, step * extent)
          == Repeat(m1, n, disp * extent, step * extent) + Shift(m1, disp * extent + n * (step * extent));
      assert RepeatOffsets(offs, count, disp, step) == front + OffsetBy(offs, d);
      hide *;
      RepeatExpand(m, offs, extent, n, disp, step);
      ScaleStep(disp, n, step, extent);
      ShiftExpand(m, offs, extent, d);
      ExpandConcat(m, front, OffsetBy(offs, d), extent);
    }
  }

  lemma ExpandOne(m: TypeMap, extent: int)
    ensures Expand(m, [0], extent) == m
  {
    ShiftZero(m);
    assert [0][..0] == [];
  }
}
