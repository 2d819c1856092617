/** The constructors that merge neighbouring blocks while they build a type. */
module Merging {
  import opened Arithmetic
  import opened TypeMaps
  import opened Datatypes

  /** MPI-3.1, section 4.1.2: block i is `lengths[i]` copies starting at byte `starts[i]`. */
  function BlocksMap(m: TypeMap, lengths: seq<nat>, starts: seq<int>, extent: int): TypeMap
    requires |lengths| == |starts|
  {
    if lengths == [] then []
    else
      var n := |lengths| - 1;
      BlocksMap(m, lengths[..n], starts[..n], extent) + Repeat(m, lengths[n], starts[n], extent)
  }

  /** The same, with a type of its own for every block. */
  function StructMap(maps: seq<TypeMap>, extents: seq<int>, lengths: seq<nat>, starts: seq<int>): TypeMap
    requires |maps| == |extents| == |lengths| == |starts|
  {
    if lengths == [] then []
    else
      var n := |lengths| - 1;
      StructMap(maps[..n], extents[..n], lengths[..n], starts[..n]) + Repeat(maps[n], lengths[n], starts[n], extents[n])
  }

  function Scale(disps: seq<int>, extent: int): seq<int> {
    seq(|disps|, i requires 0 <= i < |disps| => disps[i] * extent)
  }

  lemma BlocksSnoc(m: TypeMap, lengths: seq<nat>, starts: seq<int>, extent: int, i: nat)
    requires |lengths| == |starts| && i < |lengths|
    ensures BlocksMap(m, lengths[..i + 1], starts[..i + 1], extent)
         == BlocksMap(m, lengths[..i], starts[..i], extent) + Repeat(m, lengths[i], starts[i], extent)
  {
    assert lengths[..i + 1][..i] == lengths[..i];
    assert starts[..i + 1][..i] == starts[..i];
  }

  /** Items together with the edges of the copies they belong to. */
  datatype Laid = Laid(items: TypeMap, edges: TypeMap)

  const NOTHING := Laid([], [])

  function Append(built: Laid, m: Laid, count: nat, disp: int, extent: int): Laid {
    Laid(built.items + Repeat(m.items, count, disp, extent), built.edges + Repeat(m.edges, count, disp, extent))
  }

  function Blocks(m: Laid, lengths: seq<nat>, starts: seq<int>, extent: int): Laid
    requires |lengths| == |starts|
  {
    Laid(BlocksMap(m.items, lengths, starts, extent), BlocksMap(m.edges, lengths, starts, extent))
  }

  /** Loop invariant of the block constructors: what is built, followed by the
      pending block, is laid out like the first i blocks. */
  ghost predicate Pending(built: Laid, m: Laid, pending: nat, disp: int, extent: int,
                          lengths: seq<nat>, starts: seq<int>, i: nat)
  {
    |lengths| == |starts| && i <= |lengths| &&
    Append(built, m, pending, disp, extent) == Blocks(m, lengths[..i], starts[..i], extent)
  }

  lemma BlocksNext(m: Laid, lengths: seq<nat>, starts: seq<int>, extent: int, i: nat)
    requires |lengths| == |starts| && i < |lengths|
    ensures Blocks(m, lengths[..i + 1], starts[..i + 1], extent)
         == Append(Blocks(m, lengths[..i], starts[..i], extent), m, lengths[i], starts[i], extent)
  {
    BlocksSnoc(m.items, lengths, starts, extent, i);
    BlocksSnoc(m.edges, lengths, starts, extent, i);
  }

  lemma PendingFirst(m: Laid, extent: int, lengths: seq<nat>, starts: seq<int>)
    requires 0 < |lengths| == |starts|
    ensures Pending(NOTHING, m, lengths[0], starts[0], extent, lengths, starts, 1)
  {
    BlocksNext(m, lengths, starts, extent, 0);
  }

  lemma AppendSplit(built: Laid, m: Laid, a: nat, b: nat, disp: int, extent: int)
    ensures var first := Append(built, m, a, disp, extent);
      Append(built, m, a + b, disp, extent) == Append(first, m, b, disp + a * extent, extent)
  {
    RepeatSplit(m.items, a, b, disp, extent);
    RepeatSplit(m.edges, a, b, disp, extent);
  }

  /** A block that starts where the pending one ends may join it. */
  lemma PendingMerge(built: Laid, m: Laid, pending: nat, disp: int, extent: int,
                     lengths: seq<nat>, starts: seq<int>, i: nat)
    requires Pending(built, m, pending, disp, extent, lengths, starts, i) && i < |lengths|
    requires starts[i] == disp + pending * extent
    ensures Pending(built, m, pending + lengths[i], disp, extent, lengths, starts, i + 1)
  {
    AppendSplit(built, m, pending, lengths[i], disp, extent);
    BlocksNext(m, lengths, starts, extent, i);
  }

  /** Otherwise the pending block is appended and the new one takes its place. */
  lemma PendingFlush(built: Laid, m: Laid, pending: nat, disp: int, extent: int,
                     lengths: seq<nat>, starts: seq<int>, i: nat)
    requires Pending(built, m, pending, disp, extent, lengths, starts, i) && i < |lengths|
    ensures Pending(Append(built, m, pending, disp, extent), m, lengths[i], starts[i], extent, lengths, starts, i + 1)
  {
    BlocksNext(m, lengths, starts, extent, i);
  }

  lemma PendingLast(built: Laid, m: Laid, pending: nat, disp: int, extent: int, lengths: seq<nat>, starts: seq<int>)
    requires Pending(built, m, pending, disp, extent, lengths, starts, |lengths|)
    ensures Append(built, m, pending, disp, extent) == Blocks(m, lengths, starts, extent)
  {
    assert lengths[..|lengths|] == lengths && starts[..|starts|] == starts;
  }

  /** A datatype under construction from copies of a type with marks `marks`. */
  ghost predicate Has(t: Datatype, built: Laid, marks: Marks)
    requires marks.align > 0
    reads t
  {
    t.Valid() && t.typemap == built.items && (Natural(marks) ==> Encloses(t.marks, built.edges, marks.align))
  }

  ghost function LaidOf(t: Datatype): Laid
    reads t
  {
    Laid(t.typemap, Edges(t.marks))
  }

  /** Appends copies of the old type. */
  method Grow(newType: Datatype, oldType: Datatype, count: nat, disp: int, extent: int, ghost built: Laid)
    returns (ghost next: Laid)
    requires oldType.Valid() && extent == oldType.Extent() && newType != oldType
    requires Has(newType, built, oldType.marks)
    modifies newType
    ensures next == Append(built, LaidOf(oldType), count, disp, extent) && Has(newType, next, oldType.marks)
  {
    ghost var edges := newType.AddOwn(oldType, count, disp, extent, built.edges);
    next := Append(built, LaidOf(oldType), count, disp, extent);
  }

  lemma Distribute(a: int, b: int, extent: int)
    ensures (a + b) * extent == a * extent + b * extent
  {}

  method CreateHIndexed(count: nat, lengths: seq<nat>, disps: seq<int>, oldType: Datatype) returns (newType: Datatype)
    requires oldType.Valid() && |lengths| == |disps| == count
    ensures fresh(newType) && newType.Valid()
    ensures newType.typemap == BlocksMap(oldType.typemap, lengths, disps, oldType.Extent())
    ensures Natural(oldType.marks) ==>
      Encloses(newType.marks, BlocksMap(Edges(oldType.marks), lengths, disps, oldType.Extent()), oldType.marks.align)
  {
    newType := new Datatype();
    if count == 0 { return; }
    var extent := oldType.Extent();
    ghost var m, built := LaidOf(oldType), NOTHING;
    var disp, dLength: nat := disps[0], lengths[0];
    var endat := disp + dLength * extent;
    PendingFirst(m, extent, lengths, disps);
    for i := 1 to count
      invariant oldType.Valid() && fresh(newType) && Has(newType, built, oldType.marks)
      invariant endat == disp + dLength * extent
      invariant Pending(built, m, dLength, disp, extent, lengths, disps, i)
    {
      if endat == disps[i] {
        PendingMerge(built, m, dLength, disp, extent, lengths, disps, i);
        dLength, endat := dLength + lengths[i], endat + lengths[i] * extent;
      } else {
        PendingFlush(built, m, dLength, disp, extent, lengths, disps, i);
        built := Grow(newType, oldType, dLength, disp, extent, built);
        disp, dLength := disps[i], lengths[i];
        endat := disp + lengths[i] * extent;
      }
    }
    PendingLast(built, m, dLength, disp, extent, lengths, disps);
    built := Grow(newType, oldType, dLength, disp, extent, built);
  }

  method CreateIndexed(count: nat, lengths: seq<nat>, disps: seq<int>, oldType: Datatype) returns (newType: Datatype)
    requires oldType.Valid() && |lengths| == |disps| == count
    ensures fresh(newType) && newType.Valid()
    ensures newType.typemap == BlocksMap(oldType.typemap, lengths, Scale(disps, oldType.Extent()), oldType.Extent())
    ensures count == 0 ==> newType.marks.bounded && newType.marks.lb == newType.marks.ub == 0
    ensures count > 0 && Natural(oldType.marks) ==>
      Encloses(newType.marks,
               BlocksMap(Edges(oldType.marks), lengths, Scale(disps, oldType.Extent()), oldType.Extent()),
               oldType.marks.align)
  {
    if count == 0 {
      newType := DuplicateNull();
      return;
    }
    newType := new Datatype();
    var extent := oldType.Extent();
    ghost var m, built, starts := LaidOf(oldType), NOTHING, Scale(disps, extent);
    var disp, dLength: nat := disps[0], lengths[0];
    var endat := disp + dLength;
    PendingFirst(m, extent, lengths, starts);
    for i := 1 to count
      invariant oldType.Valid() && fresh(newType) && Has(newType, built, oldType.marks)
      invariant endat == disp + dLength
      invariant Pending(built, m, dLength, disp * extent, extent, lengths, starts, i)
    {
      if endat == disps[i] {
        Distribute(disp, dLength, extent);
        PendingMerge(built, m, dLength, disp * extent, extent, lengths, starts, i);
        dLength, endat := dLength + lengths[i], endat + lengths[i];
      } else {
        PendingFlush(built, m, dLength, disp * extent, extent, lengths, starts, i);
        built := Grow(newType, oldType, dLength, disp * extent, extent, built);
        disp, dLength := disps[i], lengths[i];
        endat := disp + lengths[i];
      }
    }
    PendingLast(built, m, dLength, disp * extent, extent, lengths, starts);
    built := Grow(newType, oldType, dLength, disp * extent, extent, built);
  }

  function Same(count: nat, blockLength: nat): seq<nat> {
    seq(count, _ => blockLength)
  }

  lemma {:induction false} EmptyBlocks(m: TypeMap, starts: seq<int>, extent: int)
    ensures BlocksMap(m, Same(|starts|, 0), starts, extent) == []
    decreases |starts|
  {
    if starts != [] {
      var n := |starts| - 1;
      EmptyBlocks(m, starts[..n], extent);
      assert Same(|starts|, 0)[..n] == Same(n, 0);
    }
  }

  method CreateIndexedBlock(count: nat, blockLength: nat, disps: seq<int>, oldType: Datatype)
      returns (newType: Datatype)
    requires oldType.Valid() && |disps| == count
    ensures fresh(newType) && newType.Valid()
    ensures newType.typemap
         == BlocksMap(oldType.typemap, Same(count, blockLength), Scale(disps, oldType.Extent()), oldType.Extent())
    ensures count == 0 ==> newType.marks.bounded && newType.marks.lb == newType.marks.ub == 0
    ensures count > 0 && Natural(oldType.marks) ==>
      Encloses(newType.marks, BlocksMap(Edges(oldType.marks), Same(count, blockLength),
                                        Scale(disps, oldType.Extent()), oldType.Extent()),
               oldType.marks.align)
  {
    newType := new Datatype();
    var extent := oldType.Extent();
    ghost var m, built := LaidOf(oldType), NOTHING;
    ghost var starts, lengths := Scale(disps, extent), Same(count, blockLength);
    if count == 0 || blockLength == 0 {
      if count == 0 {
        newType := DuplicateNull();
      } else {
        built := Grow(newType, oldType, 0, disps[0] * extent, extent, built);
      }
      EmptyBlocks(m.items, starts, extent);
      EmptyBlocks(m.edges, starts, extent);
      assert count == 0 ==> lengths == Same(0, 0);
      return;
    }
    var disp, dLength: nat := disps[0], blockLength;
    var endat := disp + dLength;
    PendingFirst(m, extent, lengths, starts);
    for i := 1 to count
      invariant oldType.Valid() && fresh(newType) && Has(newType, built, oldType.marks)
      invariant endat == disp + dLength
      invariant Pending(built, m, dLength, disp * extent, extent, lengths, starts, i)
    {
      if endat == disps[i] {
        Distribute(disp, dLength, extent);
        PendingMerge(built, m, dLength, disp * extent, extent, lengths, starts, i);
        dLength, endat := dLength + blockLength, endat + blockLength;
      } else {
        PendingFlush(built, m, dLength, disp * extent, extent, lengths, starts, i);
        built := Grow(newType, oldType, dLength, disp * extent, extent, built);
        disp, dLength := disps[i], blockLength;
        endat := disp + blockLength;
      }
    }
    PendingLast(built, m, dLength, disp * extent, extent, lengths, starts);
    built := Grow(newType, oldType, dLength, disp * extent, extent, built);
  }

  // ----- hindexed_block: its merge test adds an element count to a byte displacement -----

  /** Where the code really places block i. */
  function PlacedStart(blockLength: nat, disps: seq<int>, extent: int, i: nat): int
    requires i < |disps|
  {
    if i > 0 && disps[i] == disps[i - 1] + blockLength
    then PlacedStart(blockLength, disps, extent, i - 1) + blockLength * extent
    else disps[i]
  }

  function PlacedStarts(blockLength: nat, disps: seq<int>, extent: int): seq<int> {
    seq(|disps|, i requires 0 <= i < |disps| => PlacedStart(blockLength, disps, extent, i))
  }

  /** Some block starts `blockLength` bytes after its predecessor. */
  predicate FalseNeighbours(blockLength: nat, disps: seq<int>) {
    exists i :: 0 < i < |disps| && disps[i] == disps[i - 1] + blockLength
  }

  lemma LastBlock(m: TypeMap, blockLength: nat, starts: seq<int>, extent: int)
    requires starts != []
    ensures var n := |starts| - 1;
      BlocksMap(m, Same(|starts|, blockLength), starts, extent)
      == BlocksMap(m, Same(n, blockLength), starts[..n], extent) + Repeat(m, blockLength, starts[n], extent)
  {
    assert Same(|starts|, blockLength)[..|starts| - 1] == Same(|starts| - 1, blockLength);
  }

  lemma AddRow(front: nat, last: nat, n: nat, width: nat)
    requires front == n * width && last == width
    ensures front + last == (n + 1) * width
  {}

  lemma {:induction false} BlocksLength(m: TypeMap, blockLength: nat, starts: seq<int>, extent: int)
    ensures |BlocksMap(m, Same(|starts|, blockLength), starts, extent)| == |starts| * (blockLength * |m|)
    decreases |starts|
  {
    if starts != [] {
      var n := |starts| - 1;
      var front := BlocksMap(m, Same(n, blockLength), starts[..n], extent);
      assert |front| == n * (blockLength * |m|) by { BlocksLength(m, blockLength, starts[..n], extent); }
      LastBlock(m, blockLength, starts, extent);
      hide *;
      var last := Repeat(m, blockLength, starts[n], extent);
      assert |last| == blockLength * |m| by { RepeatLength(m, blockLength, starts[n], extent); }
      AddRow(|front|, |last|, n, blockLength * |m|);
    }
  }

  lemma ConcatCancel(fa: TypeMap, ta: TypeMap, fb: TypeMap, tb: TypeMap)
    requires fa + ta == fb + tb && |fa| == |fb|
    ensures fa == fb && ta == tb
  {
    assert fa == (fa + ta)[..|fa|] && fb == (fb + tb)[..|fb|];
    assert ta == (fa + ta)[|fa|..] && tb == (fb + tb)[|fb|..];
  }

  /** Non-empty blocks can be read back: equal typemaps have equal starts. */
  lemma {:induction false} StartsDetermined(m: TypeMap, blockLength: nat, a: seq<int>, b: seq<int>, extent: int)
    requires m != [] && blockLength > 0 && |a| == |b|
    requires BlocksMap(m, Same(|a|, blockLength), a, extent) == BlocksMap(m, Same(|b|, blockLength), b, extent)
    ensures a == b
    decreases |a|
  {
    if a != [] {
      var n := |a| - 1;
      LastBlock(m, blockLength, a, extent);
      LastBlock(m, blockLength, b, extent);
      BlocksLength(m, blockLength, a[..n], extent);
      BlocksLength(m, blockLength, b[..n], extent);
      ConcatCancel(BlocksMap(m, Same(n, blockLength), a[..n], extent), Repeat(m, blockLength, a[n], extent),
                   BlocksMap(m, Same(n, blockLength), b[..n], extent), Repeat(m, blockLength, b[n], extent));
      RepeatAt(m, blockLength, a[n], extent, 0, 0);
      RepeatAt(m, blockLength, b[n], extent, 0, 0);
      StartsDetermined(m, blockLength, a[..n], b[..n], extent);
      assert a == a[..n] + [a[n]] && b == b[..n] + [b[n]];
    }
  }

  lemma {:induction false} PlacedAsAsked(blockLength: nat, disps: seq<int>, extent: int, i: nat)
    requires i < |disps|
    requires extent == 1 || !FalseNeighbours(blockLength, disps)
    ensures PlacedStart(blockLength, disps, extent, i) == disps[i]
  {
    if i > 0 { PlacedAsAsked(blockLength, disps, extent, i - 1); }
  }

  lemma {:induction false} FirstMisplaced(blockLength: nat, disps: seq<int>, extent: int, i: nat)
    requires blockLength > 0 && extent != 1
    requires 0 < i < |disps| && disps[i] == disps[i - 1] + blockLength
    ensures PlacedStarts(blockLength, disps, extent) != disps
  {
    if PlacedStart(blockLength, disps, extent, i - 1) == disps[i - 1] {
      assert blockLength * extent != blockLength;
      assert PlacedStarts(blockLength, disps, extent)[i] != disps[i];
    } else {
      assert PlacedStarts(blockLength, disps, extent)[i - 1] != disps[i - 1];
    }
  }

  /** Exactly when the byte-displaced block constructor places every block where it was asked to. */
  lemma HIndexedBlockExact(m: TypeMap, blockLength: nat, disps: seq<int>, extent: int)
    ensures BlocksMap(m, Same(|disps|, blockLength), PlacedStarts(blockLength, disps, extent), extent)
         == BlocksMap(m, Same(|disps|, blockLength), disps, extent)
      <==> (extent == 1 || blockLength == 0 || m == [] || !FalseNeighbours(blockLength, disps))
  {
    var placed := PlacedStarts(blockLength, disps, extent);
    if extent == 1 || !FalseNeighbours(blockLength, disps) {
      forall i | 0 <= i < |disps| ensures placed[i] == disps[i] { PlacedAsAsked(blockLength, disps, extent, i); }
      assert placed == disps;
    } else if blockLength == 0 {
      EmptyBlocks(m, placed, extent);
      EmptyBlocks(m, disps, extent);
    } else if m == [] {
      BlocksLength(m, blockLength, placed, extent);
      BlocksLength(m, blockLength, disps, extent);
    } else {
      var i :| 0 < i < |disps| && disps[i] == disps[i - 1] + blockLength;
      FirstMisplaced(blockLength, disps, extent, i);
      if BlocksMap(m, Same(|disps|, blockLength), placed, extent)
          == BlocksMap(m, Same(|disps|, blockLength), disps, extent) {
        StartsDetermined(m, blockLength, placed, disps, extent);
      }
    }
  }

  /** The loop invariant of CreateHIndexedBlock: `endat` is off by the extent. */
  ghost predicate Placing(built: Laid, m: Laid, blockLength: nat, pending: nat, disp: int, endat: int,
                          extent: int,
                          disps: seq<int>, i: nat)
  {
    && 0 < i <= |disps|
    && endat == disps[i - 1] + blockLength
    && PlacedStart(blockLength, disps, extent, i - 1) + blockLength * extent == disp + pending * extent
    && Pending(built, m, pending, disp, extent, Same(|disps|, blockLength), PlacedStarts(blockLength, disps, extent), i)
  }

  lemma PlacingFirst(m: Laid, blockLength: nat, extent: int, disps: seq<int>)
    requires disps != []
    ensures Placing(NOTHING, m, blockLength, blockLength, disps[0], disps[0] + blockLength, extent, disps, 1)
  {
    PendingFirst(m, extent, Same(|disps|, blockLength), PlacedStarts(blockLength, disps, extent));
  }

  lemma PlacingMerge(built: Laid, m: Laid, blockLength: nat, pending: nat, disp: int, endat: int, extent: int,
                     disps: seq<int>, i: nat)
    requires Placing(built, m, blockLength, pending, disp, endat, extent, disps, i) && i < |disps| && endat == disps[i]
    ensures Placing(built, m, blockLength, pending + blockLength, disp, endat + blockLength, extent, disps, i + 1)
  {
    Distribute(pending, blockLength, extent);
    PendingMerge(built, m, pending, disp, extent, Same(|disps|, blockLength), PlacedStarts(blockLength, disps, extent),
                 i);
  }

  lemma PlacingFlush(built: Laid, m: Laid, blockLength: nat, pending: nat, disp: int, endat: int, extent: int,
                     disps: seq<int>, i: nat)
    requires Placing(built, m, blockLength, pending, disp, endat, extent, disps, i) && i < |disps| && endat != disps[i]
    ensures Placing(Append(built, m, pending, disp, extent), m, blockLength, blockLength, disps[i],
                    disps[i] + blockLength,
                    extent, disps, i + 1)
  {
    PendingFlush(built, m, pending, disp, extent, Same(|disps|, blockLength), PlacedStarts(blockLength, disps, extent),
                 i);
  }

  method CreateHIndexedBlock(count: nat, blockLength: nat, disps: seq<int>, oldType: Datatype)
      returns (newType: Datatype)
    requires oldType.Valid() && |disps| == count
    ensures fresh(newType) && newType.Valid()
    ensures newType.typemap
         == BlocksMap(oldType.typemap, Same(count, blockLength), PlacedStarts(blockLength, disps, oldType.Extent()),
                      oldType.Extent())
    ensures Natural(oldType.marks) ==>
      Encloses(newType.marks, BlocksMap(Edges(oldType.marks), Same(count, blockLength),
                                        PlacedStarts(blockLength, disps, oldType.Extent()), oldType.Extent()),
               oldType.marks.align)
    ensures newType.typemap == BlocksMap(oldType.typemap, Same(count, blockLength), disps, oldType.Extent())
      <==> (oldType.Extent() == 1 || blockLength == 0 || oldType.typemap == [] || !FalseNeighbours(blockLength, disps))
  {
    newType := new Datatype();
    var extent := oldType.Extent();
    ghost var m, built := LaidOf(oldType), NOTHING;
    if count == 0 || blockLength == 0 {
      if count != 0 { built := Grow(newType, oldType, 0, disps[0] * extent, extent, built); }
      EmptyBlocks(m.items, disps, extent);
      EmptyBlocks(m.items, PlacedStarts(blockLength, disps, extent), extent);
      EmptyBlocks(m.edges, PlacedStarts(blockLength, disps, extent), extent);
      assert count == 0 ==> Same(count, blockLength) == Same(0, 0);
      return;
    }
    var disp, dLength: nat := disps[0], blockLength;
    var endat := disp + dLength;
    PlacingFirst(m, blockLength, extent, disps);
    for i := 1 to count
      invariant oldType.Valid() && fresh(newType) && Has(newType, built, oldType.marks)
      invariant Placing(built, m, blockLength, dLength, disp, endat, extent, disps, i)
    {
      if endat == disps[i] {
        PlacingMerge(built, m, blockLength, dLength, disp, endat, extent, disps, i);
        dLength, endat := dLength + blockLength, endat + blockLength;
      } else {
        PlacingFlush(built, m, blockLength, dLength, disp, endat, extent, disps, i);
        built := Grow(newType, oldType, dLength, disp, extent, built);
        disp, dLength := disps[i], blockLength;
        endat := disp + blockLength;
      }
    }
    PendingLast(built, m, dLength, disp, extent, Same(count, blockLength),
                PlacedStarts(blockLength, disps, extent));
    built := Grow(newType, oldType, dLength, disp, extent, built);
    HIndexedBlockExact(m.items, blockLength, disps, extent);
  }

  lemma TwoBlocks(m: TypeMap, a: int, b: int)
    ensures BlocksMap(m, Same(2, 2), [a, b], 4) == Shift(m, a) + Shift(m, a + 4) + (Shift(m, b) + Shift(m, b + 4))
  {
    TwoCopies(m, a);
    TwoCopies(m, b);
    LastBlock(m, 2, [a, b], 4);
    LastBlock(m, 2, [a], 4);
    assert [a, b][..1] == [a] && [a][..0] == [];
    assert BlocksMap(m, Same(0, 2), [], 4) == [];
    hide BlocksMap, Repeat, Shift;
    var first := Shift(m, a) + Shift(m, a + 4);
    assert [] + first == first;
  }

  lemma TwoCopies(m: TypeMap, disp: int)
    ensures Repeat(m, 2, disp, 4) == Shift(m, disp) + Shift(m, disp + 4)
  {
    RepeatOne(m, disp, 4);
  }

  lemma TwoBlocksOfTwo(b: int)
    ensures BlocksMap([Entry(0, 7)], Same(2, 2), [0, b], 4) ==
        [Entry(0, 7), Entry(4, 7), Entry(b, 7), Entry(b + 4, 7)]
  {
    TwoBlocks([Entry(0, 7)], 0, b);
  }

  /** Two blocks that are not adjacent and are taken for neighbours: the second
      should start at byte 2 and ends up at byte 8. */
  method BlocksPulledTogether() returns (t: Datatype)
    ensures fresh(t) && t.typemap == [Entry(0, 7), Entry(4, 7), Entry(8, 7), Entry(12, 7)]
    ensures BlocksMap([Entry(0, 7)], Same(2, 2), [0, 2], 4) == [Entry(0, 7), Entry(4, 7), Entry(2, 7), Entry(6, 7)]
  {
    assert PlacedStarts(2, [0, 2], 4) == [0, 8];
    TwoBlocksOfTwo(2);
    TwoBlocksOfTwo(8);
    var basic := new Datatype();
    basic.typemap, basic.marks := [Entry(0, 7)], Marks(true, 0, 4, false, false, 4);
    assert basic.Valid() && basic.Extent() == 4;
    hide *;
    t := CreateHIndexedBlock(2, 2, [0, 2], basic);
  }

  // ----- block types, entry by entry -----

  function CopiesBefore(lengths: seq<nat>, j: nat): (n: nat)
    requires j <= |lengths|
  {
    if j == 0 then 0 else CopiesBefore(lengths, j - 1) + lengths[j - 1]
  }

  lemma {:induction false} CopiesInFront(lengths: seq<nat>, j: nat, n: nat)
    requires j <= n <= |lengths|
    ensures CopiesBefore(lengths[..n], j) == CopiesBefore(lengths, j)
  {
    if j > 0 { CopiesInFront(lengths, j - 1, n); }
  }

  lemma {:induction false} BlocksMapLength(m: TypeMap, lengths: seq<nat>, starts: seq<int>, extent: int)
    requires |lengths| == |starts|
    ensures |BlocksMap(m, lengths, starts, extent)| == CopiesBefore(lengths, |lengths|) * |m|
    decreases |lengths|
  {
    if lengths != [] {
      var n := |lengths| - 1;
      var front, last := BlocksMap(m, lengths[..n], starts[..n], extent), Repeat(m, lengths[n], starts[n], extent);
      assert BlocksMap(m, lengths, starts, extent) == front + last;
      BlocksMapLength(m, lengths[..n], starts[..n], extent);
      CopiesInFront(lengths, n, n);
      CopiesOneMore(lengths, n);
      hide *;
      RepeatLength(m, lengths[n], starts[n], extent);
      Distribute(CopiesBefore(lengths, n), lengths[n], |m|);
    }
  }

  lemma CopiesOneMore(lengths: seq<nat>, n: nat)
    requires n < |lengths|
    ensures CopiesBefore(lengths, n + 1) == CopiesBefore(lengths, n) + lengths[n]
  {}

  /** Item i of copy k of block j. */
  lemma {:induction false} BlocksMapAt(m: TypeMap, lengths: seq<nat>, starts: seq<int>, extent: int,
                                       j: nat, k: nat, i: nat)
    requires |lengths| == |starts| && j < |lengths| && k < lengths[j] && i < |m|
    ensures var at := (CopiesBefore(lengths, j) + k) * |m| + i;
      && at < |BlocksMap(m, lengths, starts, extent)|
      && BlocksMap(m, lengths, starts, extent)[at] == Entry(m[i].disp + starts[j] + k * extent, m[i].basic)
    decreases |lengths|
  {
    var n := |lengths| - 1;
    BlocksMapLength(m, lengths[..n], starts[..n], extent);
    CopiesInFront(lengths, j, n);
    CopiesInFront(lengths, n, n);
    if j < n {
      BlocksMapAt(m, lengths[..n], starts[..n], extent, j, k, i);
    } else {
      RepeatAt(m, lengths[n], starts[n], extent, k, i);
      Distribute(CopiesBefore(lengths, n), k, |m|);
    }
  }

  /** ... and there are no others. */
  lemma {:induction false} BlocksMapOnly(m: TypeMap, lengths: seq<nat>, starts: seq<int>, extent: int, at: nat)
    returns (j: nat, k: nat, i: nat)
    requires |lengths| == |starts| && at < |BlocksMap(m, lengths, starts, extent)|
    ensures j < |lengths| && k < lengths[j] && i < |m| && at == (CopiesBefore(lengths, j) + k) * |m| + i
    decreases |lengths|
  {
    var n := |lengths| - 1;
    BlocksMapLength(m, lengths, starts, extent);
    BlocksMapLength(m, lengths[..n], starts[..n], extent);
    CopiesInFront(lengths, n, n);
    if at < |BlocksMap(m, lengths[..n], starts[..n], extent)| {
      j, k, i := BlocksMapOnly(m, lengths[..n], starts[..n], extent, at);
      CopiesInFront(lengths, j, n);
    } else {
      CopiesOneMore(lengths, n);
      hide *;
      k, i := InLastBlock(at, CopiesBefore(lengths, n), lengths[n], |m|);
      j := n;
    }
  }

  lemma InLastBlock(at: nat, before: nat, length: nat, width: nat) returns (k: nat, i: nat)
    requires before * width <= at < (before + length) * width
    ensures k < length && i < width && at == (before + k) * width + i
  {
    MulDifference(before + length, before, width);
    k, i := RowAndColumn(at - before * width, length, width);
    Distribute(before, k, width);
  }

  /** With element displacements: copy k of block j is `disps[j] + k` extents away. */
  lemma IndexedAt(m: TypeMap, lengths: seq<nat>, disps: seq<int>, extent: int, j: nat, k: nat, i: nat)
    requires |lengths| == |disps| && j < |lengths| && k < lengths[j] && i < |m|
    ensures var at := (CopiesBefore(lengths, j) + k) * |m| + i;
      && at < |BlocksMap(m, lengths, Scale(disps, extent), extent)|
      && BlocksMap(m, lengths, Scale(disps, extent), extent)[at]
         == Entry(m[i].disp + (disps[j] + k) * extent, m[i].basic)
  {
    BlocksMapAt(m, lengths, Scale(disps, extent), extent, j, k, i);
    Distribute(disps[j], k, extent);
  }

  // ----- the bounds of an indexed type -----

  /** One of the copies starts `at` bytes from the origin. */
  predicate CopyAt(lengths: seq<nat>, disps: seq<int>, extent: int, at: int) {
    exists j, k :: 0 <= j < |lengths| && j < |disps| && 0 <= k < lengths[j] && at == CopyStart(disps, extent, j, k)
  }

  function CopyStart(disps: seq<int>, extent: int, j: nat, k: nat): int
    requires j < |disps|
  {
    (disps[j] + k) * extent
  }

  /** e is an edge of one of the copies. */
  predicate EdgeAt(m: Marks, lengths: seq<nat>, disps: seq<int>, extent: int, e: Entry) {
    || (e.basic == LOWER && CopyAt(lengths, disps, extent, e.disp - m.lb))
    || (e.basic == UPPER && CopyAt(lengths, disps, extent, e.disp - m.ub))
  }

  lemma EdgesOfCopies(m: Marks, lengths: seq<nat>, disps: seq<int>, extent: int, e: Entry)
    requires m.bounded && |lengths| == |disps|
    requires e in BlocksMap(Edges(m), lengths, Scale(disps, extent), extent)
    ensures EdgeAt(m, lengths, disps, extent, e)
  {
    var starts, edges := Scale(disps, extent), BlocksMap(Edges(m), lengths, Scale(disps, extent), extent);
    var at :| 0 <= at < |edges| && edges[at] == e;
    var j, k, i := BlocksMapOnly(Edges(m), lengths, starts, extent, at);
    IndexedAt(Edges(m), lengths, disps, extent, j, k, i);
    hide BlocksMap, Scale, CopiesBefore;
    assert e.disp - Edges(m)[i].disp == CopyStart(disps, extent, j, k);
  }

  lemma CopiesHaveEdges(m: Marks, lengths: seq<nat>, disps: seq<int>, extent: int, at: int)
    requires m.bounded && |lengths| == |disps| && CopyAt(lengths, disps, extent, at)
    ensures Entry(m.lb + at, LOWER) in BlocksMap(Edges(m), lengths, Scale(disps, extent), extent)
    ensures Entry(m.ub + at, UPPER) in BlocksMap(Edges(m), lengths, Scale(disps, extent), extent)
  {
    var j, k :| 0 <= j < |lengths| && j < |disps| && 0 <= k < lengths[j] && at == CopyStart(disps, extent, j, k);
    hide BlocksMap, Scale, CopiesBefore, CopyAt;
    IndexedAt(Edges(m), lengths, disps, extent, j, k, 0);
    IndexedAt(Edges(m), lengths, disps, extent, j, k, 1);
  }

  /** From the least lower bound of a copy to the greatest upper bound of a copy,
      if the old type's extent is a multiple of its alignment, and in any case
      around all copies. */
  lemma IndexedBounds(n: Marks, m: Marks, lengths: seq<nat>, disps: seq<int>, extent: int)
    requires m.bounded && m.align > 0 && |lengths| == |disps| && extent == m.ub - m.lb
    requires Encloses(n, BlocksMap(Edges(m), lengths, Scale(disps, m.Extent()), m.Extent()), m.align)
    ensures n.bounded <==> exists j :: 0 <= j < |lengths| && lengths[j] > 0
    ensures forall at :: CopyAt(lengths, disps, extent, at) ==> n.lb <= at + m.lb && at + m.ub <= n.ub
    ensures n.bounded ==> CopyAt(lengths, disps, extent, n.lb - m.lb) && (n.ub - n.lb) % m.align == 0
    ensures n.bounded && extent % m.align == 0 ==> CopyAt(lengths, disps, extent, n.ub - m.ub)
  {
    var edges := BlocksMap(Edges(m), lengths, Scale(disps, extent), extent);
    assert Encloses(n, edges, m.align);
    hide BlocksMap, Edges, Scale, Encloses, EdgeAt, CopyAt;
    forall e | e in edges
      ensures EdgeAt(m, lengths, disps, extent, e)
    {
      EdgesOfCopies(m, lengths, disps, extent, e);
    }
    BoundsAttained(n, m, lengths, disps, extent, edges);
    forall at | CopyAt(lengths, disps, extent, at)
      ensures n.bounded && n.lb <= at + m.lb && at + m.ub <= n.ub
    {
      CopiesHaveEdges(m, lengths, disps, extent, at);
      BoundsAround(n, m, at, edges);
    }
    SomeBlock(lengths, disps, extent);
  }

  lemma BoundsAround(n: Marks, m: Marks, at: int, edges: TypeMap)
    requires m.align > 0 && Encloses(n, edges, m.align)
    requires Entry(m.lb + at, LOWER) in edges && Entry(m.ub + at, UPPER) in edges
    ensures n.bounded && n.lb <= at + m.lb && at + m.ub <= n.ub
  {}

  lemma BoundsAttained(n: Marks, m: Marks, lengths: seq<nat>, disps: seq<int>, extent: int, edges: TypeMap)
    requires m.align > 0 && extent == m.ub - m.lb && Encloses(n, edges, m.align)
    requires forall e :: e in edges ==> EdgeAt(m, lengths, disps, extent, e)
    ensures n.bounded ==> CopyAt(lengths, disps, extent, n.lb - m.lb) && (n.ub - n.lb) % m.align == 0
    ensures n.bounded && extent % m.align == 0 ==> CopyAt(lengths, disps, extent, n.ub - m.ub)
  {
    if extent % m.align == 0 { IndexedInStep(m, lengths, disps, extent, edges); }
    hide CopyAt;
    assert n.bounded ==> EdgeAt(m, lengths, disps, extent, Entry(n.lb, LOWER));
    assert n.bounded && extent % m.align == 0 ==> EdgeAt(m, lengths, disps, extent, Entry(n.ub, UPPER));
  }

  /** There is a copy if and only if there is a block that is not empty. */
  lemma SomeBlock(lengths: seq<nat>, disps: seq<int>, extent: int)
    requires |lengths| == |disps|
    ensures (exists at :: CopyAt(lengths, disps, extent, at)) <==> exists j :: 0 <= j < |lengths| && lengths[j] > 0
  {
    forall j | 0 <= j < |lengths| && lengths[j] > 0
      ensures exists at :: CopyAt(lengths, disps, extent, at)
    {
      assert CopyAt(lengths, disps, extent, CopyStart(disps, extent, j, 0));
    }
  }

  lemma IndexedInStep(m: Marks, lengths: seq<nat>, disps: seq<int>, extent: int, edges: TypeMap)
    requires m.align > 0 && extent == m.ub - m.lb && extent % m.align == 0
    requires forall e :: e in edges ==> EdgeAt(m, lengths, disps, extent, e)
    ensures InStep(edges, m.align)
  {
    forall e, e' | e in edges && e' in edges
      ensures (e.disp - e'.disp) % m.align == 0
    {
      var a := WholeExtents(m, lengths, disps, extent, e);
      var b := WholeExtents(m, lengths, disps, extent, e');
      var q := extent / m.align;
      assert extent == q * m.align;
      MulDifference(a, b, extent);
      assert (a - b) * extent == ((a - b) * q) * m.align;
      MultipleOf((a - b) * q, m.align);
    }
  }

  lemma WholeExtents(m: Marks, lengths: seq<nat>, disps: seq<int>, extent: int, e: Entry) returns (a: int)
    requires extent == m.ub - m.lb && EdgeAt(m, lengths, disps, extent, e)
    ensures e.disp == m.lb + a * extent
  {
    var shift := if e.basic == LOWER then 0 else 1;
    var j, k :| 0 <= j < |lengths| && j < |disps| && 0 <= k < lengths[j]
      && e.disp - m.lb - shift * extent == CopyStart(disps, extent, j, k);
    a := disps[j] + k + shift;
    Distribute(disps[j] + k, shift, extent);
  }

  // ----- struct -----

  ghost function Maps(types: seq<Datatype>): seq<TypeMap>
    reads types
  {
    seq(|types|, i requires 0 <= i < |types| reads types => types[i].typemap)
  }

  ghost function Extents(types: seq<Datatype>): seq<int>
    reads types
  {
    seq(|types|, i requires 0 <= i < |types| reads types => types[i].Extent())
  }

  ghost function AllEdges(types: seq<Datatype>): seq<TypeMap>
    reads types
  {
    seq(|types|, i requires 0 <= i < |types| reads types => Edges(types[i].marks))
  }

  /** What the arguments of CreateStruct say about its types. */
  datatype Parts = Parts(maps: seq<TypeMap>, edges: seq<TypeMap>, extents: seq<int>)

  ghost function PartsOf(types: seq<Datatype>): (p: Parts)
    reads types
    ensures |p.maps| == |p.edges| == |p.extents| == |types|
  {
    Parts(Maps(types), AllEdges(types), Extents(types))
  }

  ghost function Structure(parts: Parts, lengths: seq<nat>, starts: seq<int>): Laid
    requires |parts.maps| == |parts.edges| == |parts.extents| == |lengths| == |starts|
  {
    Laid(StructMap(parts.maps, parts.extents, lengths, starts), StructMap(parts.edges, parts.extents, lengths, starts))
  }

  /** The loop invariant of CreateStruct, as Pending is for blocks of one type. */
  ghost predicate StructPending(built: Laid, m: Laid, pending: nat, disp: int, extent: int,
                                parts: Parts, lengths: seq<nat>, starts: seq<int>, i: nat)
  {
    && |parts.maps| == |parts.edges| == |parts.extents| == |lengths| == |starts| && i <= |lengths|
    && Append(built, m, pending, disp, extent) == Structure(FirstParts(parts, i), lengths[..i], starts[..i])
  }

  function FirstParts(parts: Parts, i: nat): Parts
    requires i <= |parts.maps| && i <= |parts.edges| && i <= |parts.extents|
  {
    Parts(parts.maps[..i], parts.edges[..i], parts.extents[..i])
  }

  lemma StructSnoc(maps: seq<TypeMap>, extents: seq<int>, lengths: seq<nat>, starts: seq<int>, i: nat)
    requires |maps| == |extents| == |lengths| == |starts| && i < |lengths|
    ensures StructMap(maps[..i + 1], extents[..i + 1], lengths[..i + 1], starts[..i + 1])
         == StructMap(maps[..i], extents[..i], lengths[..i], starts[..i])
             + Repeat(maps[i], lengths[i], starts[i], extents[i])
  {
    assert maps[..i + 1][..i] == maps[..i] && extents[..i + 1][..i] == extents[..i];
    assert lengths[..i + 1][..i] == lengths[..i] && starts[..i + 1][..i] == starts[..i];
  }

  lemma StructNext(parts: Parts, lengths: seq<nat>, starts: seq<int>, i: nat)
    requires |parts.maps| == |parts.edges| == |parts.extents| == |lengths| == |starts| && i < |lengths|
    ensures Structure(FirstParts(parts, i + 1), lengths[..i + 1], starts[..i + 1])
         == Append(Structure(FirstParts(parts, i), lengths[..i], starts[..i]), Laid(parts.maps[i], parts.edges[i]),
                   lengths[i], starts[i], parts.extents[i])
  {
    StructSnoc(parts.maps, parts.extents, lengths, starts, i);
    StructSnoc(parts.edges, parts.extents, lengths, starts, i);
  }

  lemma StructMerge(built: Laid, m: Laid, pending: nat, disp: int, extent: int,
                    parts: Parts, lengths: seq<nat>, starts: seq<int>, i: nat)
    requires StructPending(built, m, pending, disp, extent, parts, lengths, starts, i) && i < |lengths|
    requires Laid(parts.maps[i], parts.edges[i]) == m && parts.extents[i] == extent
    requires starts[i] == disp + pending * extent
    ensures StructPending(built, m, pending + lengths[i], disp, extent, parts, lengths, starts, i + 1)
  {
    AppendSplit(built, m, pending, lengths[i], disp, extent);
    StructNext(parts, lengths, starts, i);
  }

  lemma StructFlush(built: Laid, m: Laid, pending: nat, disp: int, extent: int,
                    parts: Parts, lengths: seq<nat>, starts: seq<int>, i: nat)
    requires StructPending(built, m, pending, disp, extent, parts, lengths, starts, i) && i < |lengths|
    ensures StructPending(Append(built, m, pending, disp, extent), Laid(parts.maps[i], parts.edges[i]), lengths[i],
                          starts[i], parts.extents[i], parts, lengths, starts, i + 1)
  {
    StructNext(parts, lengths, starts, i);
  }

  lemma StructLast(built: Laid, m: Laid, pending: nat, disp: int, extent: int,
                   parts: Parts, lengths: seq<nat>, starts: seq<int>)
    requires StructPending(built, m, pending, disp, extent, parts, lengths, starts, |lengths|)
    ensures Append(built, m, pending, disp, extent) == Structure(parts, lengths, starts)
  {
    assert FirstParts(parts, |lengths|) == parts && lengths[..|lengths|] == lengths && starts[..|starts|] == starts;
  }

  lemma StructStart(parts: Parts, lengths: seq<nat>, starts: seq<int>)
    requires |parts.maps| == |parts.edges| == |parts.extents| == |lengths| == |starts| > 0
    ensures StructPending(NOTHING, Laid(parts.maps[0], parts.edges[0]), lengths[0], starts[0], parts.extents[0],
                          parts, lengths, starts, 1)
  {
    StructNext(parts, lengths, starts, 0);
  }

  /** The types are still what `parts` says. */
  ghost predicate AreParts(types: seq<Datatype>, parts: Parts)
    reads types
    ensures AreParts(types, parts) ==> |parts.maps| == |parts.edges| == |parts.extents| == |types|
  {
    && (forall t :: t in types ==> t.Valid())
    && PartsOf(types) == parts
  }

  lemma PartAt(types: seq<Datatype>, parts: Parts, i: nat)
    requires AreParts(types, parts) && i < |types|
    ensures |parts.maps| == |parts.edges| == |parts.extents| == |types|
    ensures types[i].Valid() && parts.extents[i] == types[i].Extent()
    ensures LaidOf(types[i]) == Laid(parts.maps[i], parts.edges[i])
  {}

  /** A struct under construction. */
  ghost predicate HasParts(t: Datatype, built: Laid, natural: bool)
    reads t
  {
    t.Valid() && t.typemap == built.items && (natural ==> Spans(t.marks, built.edges))
  }

  method GrowStruct(newType: Datatype, lastType: Datatype, count: nat, disp: int, extent: int, ghost built: Laid,
                    ghost natural: bool)
    returns (ghost next: Laid)
    requires lastType.Valid() && extent == lastType.Extent() && newType != lastType
    requires HasParts(newType, built, natural) && (natural ==> Natural(lastType.marks))
    modifies newType
    ensures next == Append(built, LaidOf(lastType), count, disp, extent) && HasParts(newType, next, natural)
  {
    ghost var edges := newType.AddOwn(lastType, count, disp, extent, built.edges);
    next := Append(built, LaidOf(lastType), count, disp, extent);
  }

  /** The loop of CreateStruct over the blocks after the first. */
  method BuildStruct(lengths: seq<nat>, disps: seq<int>, types: seq<Datatype>, ghost parts: Parts, ghost natural: bool)
    returns (newType: Datatype)
    requires |lengths| == |disps| == |types| > 0 && AreParts(types, parts)
    requires natural ==> forall t :: t in types ==> Natural(t.marks)
    ensures fresh(newType) && HasParts(newType, Structure(parts, lengths, disps), natural)
  {
    ghost var built := NOTHING;
    newType := new Datatype();
    var lastType, lastBlock: nat, lastDisp := types[0], lengths[0], disps[0];
    var lastExtent := lastType.Extent();
    var endto := disps[0] + lastBlock * lastExtent;
    StructStart(parts, lengths, disps);
    PartAt(types, parts, 0);
    assert HasParts(newType, built, natural);
    hide StructPending, StructMap, Append, Spans, Structure, PartsOf, AreParts, LaidOf, HasParts;
    for i := 1 to |types|
      invariant fresh(newType) && HasParts(newType, built, natural)
      invariant lastType in types && newType !in types && AreParts(types, parts)
      invariant natural ==> forall t :: t in types ==> Natural(t.marks)
      invariant lastExtent == lastType.Extent()
      invariant endto == lastDisp + lastBlock * lastExtent
      invariant StructPending(built, LaidOf(lastType), lastBlock, lastDisp, lastExtent, parts, lengths, disps, i)
    {
      PartAt(types, parts, i);
      if types[i] == lastType && disps[i] == endto {
        StructMerge(built, LaidOf(lastType), lastBlock, lastDisp, lastExtent, parts, lengths, disps, i);
        lastBlock := lastBlock + lengths[i];
        endto := lastDisp + lastBlock * lastExtent;
      } else {
        StructFlush(built, LaidOf(lastType), lastBlock, lastDisp, lastExtent, parts, lengths, disps, i);
        built := GrowStruct(newType, lastType, lastBlock, lastDisp, lastExtent, built, natural);
        lastType := types[i];
        lastExtent := lastType.Extent();
        lastBlock, lastDisp := lengths[i], disps[i];
        endto := lastDisp + lastBlock * lastExtent;
      }
    }
    StructLast(built, LaidOf(lastType), lastBlock, lastDisp, lastExtent, parts, lengths, disps);
    built := GrowStruct(newType, lastType, lastBlock, lastDisp, lastExtent, built, natural);
  }

  method CreateStruct(count: nat, lengths: seq<nat>, disps: seq<int>, types: seq<Datatype>) returns (newType: Datatype)
    requires |lengths| == |disps| == |types| == count
    requires forall t :: t in types ==> t.Valid()
    ensures fresh(newType) && newType.Valid()
    ensures newType.typemap == StructMap(Maps(types), Extents(types), lengths, disps)
    ensures (forall t :: t in types ==> Natural(t.marks)) ==>
      Spans(newType.marks, StructMap(AllEdges(types), Extents(types), lengths, disps))
  {
    if count == 0 {
      newType := new Datatype();
    } else {
      newType := BuildStruct(lengths, disps, types, PartsOf(types), forall t :: t in types ==> Natural(t.marks));
    }
  }
}
