/** The datatype object and the one primitive every constructor is built from:
    append `count` displaced copies of another datatype. */
module Datatypes {
  import opened Arithmetic
  import opened TypeMaps

  /** Lower bound, upper bound and alignment bookkeeping of a datatype.  A new
      datatype has no bounds yet (`bounded` is false). */
  datatype Marks = Marks(bounded: bool, lb: int, ub: int, userLb: bool, userUb: bool, align: nat) {
    /** `ub - lb`.  Before any bound is set the fields hold the largest and the
        smallest machine value, whose difference wraps around to 1. */
    function Extent(): int { if bounded then ub - lb else 1 }
  }

  const NEW_MARKS := Marks(false, 0, 0, false, false, 1)

  /** The bounds of the null datatype, a duplicate of which stands for some empty
      types; its alignment of 0 counts like 1. */
  const NULL_MARKS := Marks(true, 0, 0, false, false, 1)

  function Min(a: int, b: int): int { if a < b then a else b }

  function Max(a: int, b: int): int { if a < b then b else a }

  /** C's remainder: truncated towards zero. */
  function CRemainder(a: int, b: nat): int
    requires b > 0
  {
    if a >= 0 then a % b else -((-a) % b)
  }

  /** A natural upper bound is moved up to make the extent a multiple of the alignment. */
  function Rounded(m: Marks): Marks
    requires m.align > 0
  {
    var epsilon := if m.userUb then 0 else CRemainder(m.ub - m.lb, m.align);
    if epsilon != 0 then m.(ub := m.ub + m.align - epsilon) else m
  }

  /** Bounds after appending `count > 0` copies of a type with bounds `add`. */
  function AddMarks(base: Marks, add: Marks, count: nat, disp: int, extent: int): Marks
    requires count > 0 && base.align > 0
  {
    var align := Max(base.align, add.align);
    if !add.bounded then
      if base.bounded then Rounded(base.(align := align)) else base.(align := align)
    else
      var last := disp + extent * (count - 1);
      var addLb := Min(disp, last) + add.lb;
      var addUb := Max(disp, last) + add.ub;
      var lb := if base.userLb != add.userLb then (if base.userLb then base.lb else addLb)
                else if base.bounded then Min(base.lb, addLb) else addLb;
      var ub := if base.userUb != add.userUb then (if base.userUb then base.ub else addUb)
                else if base.bounded then Max(base.ub, addUb) else addUb;
      Rounded(Marks(true, lb, ub, base.userLb || add.userLb, base.userUb || add.userUb, align))
  }

  /** No copies change no bounds. */
  function AddedTo(base: Marks, add: Marks, count: nat, disp: int, extent: int): Marks
    requires base.align > 0
  {
    if count == 0 then base else AddMarks(base, add, count, disp, extent)
  }

  /** The spacing really used: an extent argument of -1 asks for the default. */
  function Spacing(add: Marks, extent: int): int {
    if extent == -1 then add.Extent() else extent
  }

  // ----- what the bounds mean -----

  const LOWER := 0
  const UPPER := 1

  /** The bounds of a type as a typemap of two markers; like its items, they are
      displaced with every copy. */
  function Edges(m: Marks): TypeMap {
    if m.bounded then [Entry(m.lb, LOWER), Entry(m.ub, UPPER)] else []
  }

  /** No bound was set by the user. */
  predicate Natural(m: Marks) { !m.userLb && !m.userUb }

  /** The lower bound is the least of these edges, the upper bound is no less
      than any, and the extent is a multiple of the alignment. */
  ghost predicate Spans(m: Marks, edges: TypeMap) {
    && Natural(m) && m.align > 0 && (m.bounded <==> edges != [])
    && (m.bounded ==>
          && Entry(m.lb, LOWER) in edges && (m.ub - m.lb) % m.align == 0
          && forall e :: e in edges ==> if e.basic == LOWER then m.lb <= e.disp else e.disp <= m.ub)
  }

  /** All edges are multiples of the alignment apart. */
  ghost predicate InStep(edges: TypeMap, align: nat)
    requires align > 0
  {
    forall e, e' :: e in edges && e' in edges ==> (e.disp - e'.disp) % align == 0
  }

  /** Nothing is added to the largest edge. */
  ghost predicate Tight(m: Marks, edges: TypeMap) {
    m.bounded ==> Entry(m.ub, UPPER) in edges
  }

  /** The bounds of a type made of copies of types with one alignment. */
  ghost predicate Encloses(m: Marks, edges: TypeMap, align: nat)
    requires align > 0
  {
    && Spans(m, edges) && (m.bounded ==> m.align == align)
    && (m.align == align || m.align == 1)
    && (InStep(edges, align) ==> Tight(m, edges))
  }

  lemma Monotone(a: int, b: int, extent: int)
    requires 0 <= a <= b
    ensures Min(0, b * extent) <= a * extent <= Max(0, b * extent)
  {
    if extent >= 0 {
      assert 0 <= a * extent <= b * extent;
    } else {
      assert a * (-extent) <= b * (-extent) && 0 <= a * (-extent);
    }
  }

  /** The copies' edges, from the least lower to the greatest upper one. */
  lemma CopiedEdges(add: Marks, count: nat, disp: int, extent: int)
    requires add.bounded && count > 0
    ensures var (edges, last) := (Repeat(Edges(add), count, disp, extent), disp + extent * (count - 1));
      && Entry(Min(disp, last) + add.lb, LOWER) in edges && Entry(Max(disp, last) + add.ub, UPPER) in edges
      && forall e :: e in edges ==>
           if e.basic == LOWER then Min(disp, last) + add.lb <= e.disp else e.disp <= Max(disp, last) + add.ub
  {
    var m, edges, last := Edges(add), Repeat(Edges(add), count, disp, extent), disp + extent * (count - 1);
    assert (count - 1) * extent == extent * (count - 1) && 0 * extent == 0;
    RepeatAt(m, count, disp, extent, 0, 0);
    RepeatAt(m, count, disp, extent, 0, 1);
    RepeatAt(m, count, disp, extent, count - 1, 0);
    RepeatAt(m, count, disp, extent, count - 1, 1);
    forall n | 0 <= n < |edges|
      ensures if edges[n].basic == LOWER then Min(disp, last) + add.lb <= edges[n].disp
              else edges[n].disp <= Max(disp, last) + add.ub
    {
      RepeatLength(m, count, disp, extent);
      RepeatAt(m, count, disp, extent, n / 2, n % 2);
      Monotone(n / 2, count - 1, extent);
    }
  }

  lemma RemainderZero(width: int, align: nat)
    requires align > 0
    ensures CRemainder(width, align) == 0 <==> width % align == 0
    ensures width >= 0 ==> CRemainder(width, align) == width % align
    ensures width < 0 && width % align != 0 ==> CRemainder(width, align) == width % align - align
  {
    var q, r := width / align, width % align;
    assert width == q * align + r;
    if width < 0 {
      if r == 0 {
        assert -width == (-q) * align;
        MultipleOf(-q, align);
      } else {
        assert -width == (-q - 1) * align + (align - r);
        DivModUnique(-width, align, -q - 1, align - r);
      }
    }
  }

  /** Rounding gives the least upper bound that makes the extent a multiple of
      the alignment; a negative extent gets one alignment more, unless it is a
      multiple already. */
  lemma RoundedUp(m: Marks)
    requires m.align > 0 && !m.userUb
    ensures var n := Rounded(m);
      && n == m.(ub := n.ub) && m.ub <= n.ub && (n.ub - n.lb) % m.align == 0
      && (n.ub < m.ub + m.align <==> m.ub >= m.lb || (m.ub - m.lb) % m.align == 0)
      && ((m.ub - m.lb) % m.align == 0 ==> n == m)
  {
    var width, align := m.ub - m.lb, m.align;
    RemainderZero(width, align);
    var q, r := width / align, width % align;
    assert width == q * align + r;
    assert width + align - r == (q + 1) * align && width + 2 * align - r == (q + 2) * align;
    MultipleOf(q + 1, align);
    MultipleOf(q + 2, align);
  }

  /** Adding copies of a type without user bounds to a type without them: the
      lower bound becomes the least edge there is; the upper bound becomes the
      least one that is no less than the old one and all upper edges and makes
      the extent a multiple of the alignment, unless the edges span a negative
      extent, when it may get one alignment more. */
  lemma AddedBounds(base: Marks, add: Marks, count: nat, disp: int, extent: int) returns (top: int)
    requires Natural(base) && Natural(add) && base.align > 0 && count > 0 && add.bounded
    ensures var (m, copies) := (AddMarks(base, add, count, disp, extent), Repeat(Edges(add), count, disp, extent));
      && m.bounded && Natural(m) && m.align == Max(base.align, add.align)
      && (forall e :: e in copies ==> if e.basic == LOWER then m.lb <= e.disp else e.disp <= top)
      && (base.bounded ==> m.lb <= base.lb && base.ub <= top)
      && (Entry(m.lb, LOWER) in copies || (base.bounded && m.lb == base.lb))
      && (Entry(top, UPPER) in copies || (base.bounded && top == base.ub))
      && top <= m.ub && (m.ub - m.lb) % m.align == 0
      && (m.ub < top + m.align <==> top >= m.lb || (top - m.lb) % m.align == 0)
      && ((top - m.lb) % m.align == 0 ==> m.ub == top)
  {
    var last := disp + extent * (count - 1);
    CopiedEdges(add, count, disp, extent);
    var low := Min(disp, last) + add.lb;
    var lb := if base.bounded then Min(base.lb, low) else low;
    var high := Max(disp, last) + add.ub;
    top := if base.bounded then Max(base.ub, high) else high;
    var align := Max(base.align, add.align);
    assert AddMarks(base, add, count, disp, extent) == Rounded(Marks(true, lb, top, false, false, align));
    hide Repeat, AddMarks;
    RoundedUp(Marks(true, lb, top, false, false, align));
  }

  /** A type of extent -1 and alignment 4: the least multiple that is no less is 0. */
  lemma RoundedTooFar()
    ensures AddMarks(NEW_MARKS, Marks(true, 0, -1, false, false, 4), 1, 0, -1) == Marks(true, 0, 4, false, false, 4)
  {}

  lemma RoundedOnce(lb: int, low: int, high: int, align: nat)
    requires align > 0 && lb <= low <= high <= RoundedTop(lb, low, align)
    ensures RoundedTop(lb, high, align) == RoundedTop(lb, low, align)
  {
    RoundedUp(Marks(true, lb, low, false, false, align));
    RoundedUp(Marks(true, lb, high, false, false, align));
    var a, b := RoundedTop(lb, low, align) - lb, RoundedTop(lb, high, align) - lb;
    assert a % align == 0 && b % align == 0 && a - align < b < a + align;
    hide *;
    MultiplesApart(a, b, align);
  }

  /** The least upper bound above `top` that makes the extent a multiple of the alignment. */
  function RoundedTop(lb: int, top: int, align: nat): int
    requires align > 0
  {
    Rounded(Marks(true, lb, top, false, false, align)).ub
  }

  /** Padding that was added before stays, although only the last edge needs any:
      `edge` being the largest upper edge below `base.ub`, the new upper bound is
      the one that the edges ask for if and only if that is no less than the old. */
  lemma PaddingStays(base: Marks, edge: int, add: Marks, count: nat, disp: int, extent: int)
    requires Natural(base) && Natural(add) && base.align > 0 && count > 0 && base.bounded && add.bounded
    requires base.lb <= edge <= base.ub
    ensures var m := AddMarks(base, add, count, disp, extent);
      var wanted := RoundedTop(m.lb, Max(edge, Max(disp, disp + extent * (count - 1)) + add.ub), m.align);
      m.ub == wanted <==> base.ub <= wanted
  {
    var m, high := AddMarks(base, add, count, disp, extent), Max(disp, disp + extent * (count - 1)) + add.ub;
    assert m.ub == RoundedTop(m.lb, Max(base.ub, high), m.align);
    RoundedUp(Marks(true, m.lb, Max(base.ub, high), false, false, m.align));
    RoundedUp(Marks(true, m.lb, Max(edge, high), false, false, m.align));
    if base.ub <= RoundedTop(m.lb, Max(edge, high), m.align) {
      RoundedOnce(m.lb, Max(edge, high), Max(base.ub, high), m.align);
    }
  }

  /** A bound set by the user on one side alone stands, natural ones give way to
      it; with user bounds on both sides the outermost counts.  An upper bound of
      the user's is not rounded. */
  lemma UserBounds(base: Marks, add: Marks, count: nat, disp: int, extent: int)
    requires base.bounded && add.bounded && base.align > 0 && count > 0
    ensures var (m, copies) := (AddMarks(base, add, count, disp, extent), Repeat(Edges(add), count, disp, extent));
      && (m.userLb <==> base.userLb || add.userLb) && (m.userUb <==> base.userUb || add.userUb)
      && (base.userLb && !add.userLb ==> m.lb == base.lb)
      && (add.userLb ==>
            && (forall e :: e in copies && e.basic == LOWER ==> m.lb <= e.disp)
            && (if base.userLb then m.lb <= base.lb && (m.lb == base.lb || Entry(m.lb, LOWER) in copies)
                else Entry(m.lb, LOWER) in copies))
      && (base.userUb && !add.userUb ==> m.ub == base.ub)
      && (add.userUb ==>
            && (forall e :: e in copies && e.basic == UPPER ==> e.disp <= m.ub)
            && (if base.userUb then base.ub <= m.ub && (m.ub == base.ub || Entry(m.ub, UPPER) in copies)
                else Entry(m.ub, UPPER) in copies))
  {
    CopiedEdges(add, count, disp, extent);
    hide Repeat;
  }

  lemma AddSpans(base: Marks, add: Marks, count: nat, disp: int, extent: int, edges: TypeMap)
    requires Spans(base, edges) && Natural(add) && count > 0
    ensures Spans(AddMarks(base, add, count, disp, extent), edges + Repeat(Edges(add), count, disp, extent))
  {
    if add.bounded {
      var top := AddedBounds(base, add, count, disp, extent);
    } else {
      RepeatEmpty(count, disp, extent);
      assert edges + [] == edges;
      if base.bounded { RoundedUp(base.(align := Max(base.align, add.align))); }
    }
  }

  lemma AddedToSpans(base: Marks, add: Marks, count: nat, disp: int, extent: int, edges: TypeMap)
    requires Spans(base, edges) && Natural(add)
    ensures Spans(AddedTo(base, add, count, disp, extent), edges + Repeat(Edges(add), count, disp, extent))
  {
    if count > 0 { AddSpans(base, add, count, disp, extent, edges); } else { assert edges + [] == edges; }
  }

  lemma AddTight(base: Marks, add: Marks, count: nat, disp: int, extent: int, edges: TypeMap, align: nat)
    requires align == Max(1, add.align) && Encloses(base, edges, align) && Natural(add) && count > 0 && add.bounded
    ensures var m := AddMarks(base, add, count, disp, extent);
      var next := edges + Repeat(Edges(add), count, disp, extent);
      m.bounded && m.align == align && (InStep(next, align) ==> Tight(m, next))
  {
    var top := AddedBounds(base, add, count, disp, extent);
    var copies, m := Repeat(Edges(add), count, disp, extent), AddMarks(base, add, count, disp, extent);
    hide Repeat, AddMarks;
    AlignedTop(base, edges, copies, m.lb, top, align);
  }

  lemma AddEncloses(base: Marks, add: Marks, count: nat, disp: int, extent: int, edges: TypeMap, align: nat)
    requires align == Max(1, add.align) && Encloses(base, edges, align) && Natural(add) && count > 0
    ensures Encloses(AddMarks(base, add, count, disp, extent), edges + Repeat(Edges(add), count, disp, extent), align)
  {
    AddSpans(base, add, count, disp, extent, edges);
    if add.bounded {
      AddTight(base, add, count, disp, extent, edges, align);
    } else {
      RepeatEmpty(count, disp, extent);
      assert edges + [] == edges;
      if base.bounded { RoundedUp(base); }
    }
  }

  /** Edges in step leave nothing to round. */
  lemma AlignedTop(base: Marks, edges: TypeMap, copies: TypeMap, lb: int, top: int, align: nat)
    requires align > 0 && Encloses(base, edges, align)
    requires Entry(lb, LOWER) in copies || (base.bounded && lb == base.lb)
    requires Entry(top, UPPER) in copies || (base.bounded && top == base.ub)
    ensures InStep(edges + copies, align) ==> (top - lb) % align == 0 && Entry(top, UPPER) in edges + copies
  {
    if InStep(edges + copies, align) {
      assert InStep(edges, align);
      assert Entry(top, UPPER) in edges + copies && Entry(lb, LOWER) in edges + copies;
      assert (Entry(top, UPPER).disp - Entry(lb, LOWER).disp) % align == 0;
    }
  }

  lemma RepeatOnly(m: TypeMap, count: nat, disp: int, extent: int, e: Entry) returns (k: nat, i: nat)
    requires e in Repeat(m, count, disp, extent)
    ensures k < count && i < |m| && e == Entry(m[i].disp + disp + k * extent, m[i].basic)
  {
    var all := Repeat(m, count, disp, extent);
    var at :| 0 <= at < |all| && all[at] == e;
    RepeatLength(m, count, disp, extent);
    k, i := RowAndColumn(at, count, |m|);
    RepeatAt(m, count, disp, extent, k, i);
  }

  /** The copies' edges may be taken for the block's, which they make up. */
  lemma SpansNested(n: Marks, block: Marks, edges: TypeMap, count: nat, disp: int, extent: int)
    requires Spans(block, edges) && Spans(n, Repeat(Edges(block), count, disp, extent))
    ensures Spans(n, Repeat(edges, count, disp, extent))
  {
    var outer, inner := Repeat(Edges(block), count, disp, extent), Repeat(edges, count, disp, extent);
    RepeatLength(Edges(block), count, disp, extent);
    RepeatLength(edges, count, disp, extent);
    forall e | e in inner
      ensures if e.basic == LOWER then n.lb <= e.disp else e.disp <= n.ub
    {
      var k, i := RepeatOnly(edges, count, disp, extent, e);
      assert edges[i] in edges;
      RepeatAt(Edges(block), count, disp, extent, k, 0);
      RepeatAt(Edges(block), count, disp, extent, k, 1);
    }
    if n.bounded {
      var k, i := RepeatOnly(Edges(block), count, disp, extent, Entry(n.lb, LOWER));
      var j :| 0 <= j < |edges| && edges[j] == Entry(block.lb, LOWER);
      RepeatAt(edges, count, disp, extent, k, j);
    }
  }

  /** Copies an extent apart follow each other without gap or overlap. */
  lemma CopiesTile(m: Marks, count: nat, disp: int, k: nat)
    requires m.bounded && k + 1 < count
    ensures var edges := Repeat(Edges(m), count, disp, m.Extent());
      && |edges| == 2 * count && edges[2 * k].basic == LOWER && edges[2 * k + 1].basic == UPPER
      && edges[2 * k + 1].disp == edges[2 * (k + 1)].disp
  {
    RepeatAt(Edges(m), count, disp, m.Extent(), k, 0);
    RepeatAt(Edges(m), count, disp, m.Extent(), k, 1);
    RepeatAt(Edges(m), count, disp, m.Extent(), k + 1, 0);
    MulDifference(k + 1, k, m.Extent());
  }

  class Datatype {
    var typemap: TypeMap
    var marks: Marks

    constructor ()
      ensures typemap == [] && marks == NEW_MARKS
    {
      typemap := [];
      marks := NEW_MARKS;
    }

    predicate Valid()
      reads this
    {
      marks.align > 0
    }

    function Extent(): int
      reads this
    {
      marks.Extent()
    }

    method Add(add: Datatype, count: nat, disp: int, extent: int)
      requires Valid() && add.Valid()
      modifies this
      ensures Valid()
      ensures typemap == old(typemap + Repeat(add.typemap, count, disp, Spacing(add.marks, extent)))
      ensures marks == old(AddedTo(marks, add.marks, count, disp, Spacing(add.marks, extent)))
    {
      if count == 0 { return; }
      var spacing := if extent == -1 then add.Extent() else extent;
      var newMarks := AddMarks(marks, add.marks, count, disp, spacing);
      if add.typemap == [] {
        RepeatEmpty(count, disp, spacing);
        assert typemap == typemap + [];
        marks := newMarks;
        return;
      }
      typemap, marks := typemap + Repeat(add.typemap, count, disp, spacing), newMarks;
    }

    /** With the datatype's own extent, -1 or not, the copies are that far apart.
        `edges` are the edges so far, `next` those with the copies'. */
    method AddOwn(add: Datatype, count: nat, disp: int, extent: int, ghost edges: TypeMap)
      returns (ghost next: TypeMap)
      requires Valid() && add.Valid() && extent == add.Extent()
      modifies this
      ensures Valid()
      ensures typemap == old(typemap + Repeat(add.typemap, count, disp, extent))
      ensures next == edges + old(Repeat(Edges(add.marks), count, disp, extent))
      ensures old(Natural(add.marks) && Spans(marks, edges)) ==> Spans(marks, next)
      ensures old(Natural(add.marks) && Encloses(marks, edges, add.marks.align)) ==>
                Encloses(marks, next, old(add.marks.align))
    {
      next := edges + Repeat(Edges(add.marks), count, disp, extent);
      if count == 0 {
        assert next == edges;
      } else {
        if Natural(add.marks) && Spans(marks, edges) { AddSpans(marks, add.marks, count, disp, extent, edges); }
        if Natural(add.marks) && Encloses(marks, edges, add.marks.align) {
          AddEncloses(marks, add.marks, count, disp, extent, edges, add.marks.align);
        }
      }
      hide Repeat, Spans, Encloses;
      Add(add, count, disp, extent);
    }

    method Resize(lb: int, extent: int)
      requires Valid()
      modifies this
      ensures Valid() && typemap == old(typemap) && marks == old(marks).(bounded := true, lb := lb, ub := lb + extent)
    {
      marks := marks.(bounded := true, lb := lb, ub := lb + extent);
    }
  }

  method Duplicate(oldType: Datatype) returns (newType: Datatype)
    requires oldType.Valid()
    ensures fresh(newType) && newType.Valid()
    ensures newType.typemap == oldType.typemap && newType.marks == oldType.marks
  {
    newType := new Datatype();
    newType.typemap := oldType.typemap;
    newType.marks := oldType.marks;
  }

  method DuplicateNull() returns (newType: Datatype)
    ensures fresh(newType) && newType.Valid() && newType.typemap == [] && newType.marks == NULL_MARKS
  {
    newType := new Datatype();
    newType.marks := NULL_MARKS;
  }

  method CreateContiguous(count: nat, oldType: Datatype) returns (newType: Datatype)
    requires oldType.Valid()
    ensures fresh(newType) && newType.Valid()
    ensures newType.typemap == Repeat(oldType.typemap, count, 0, oldType.Extent())
    ensures Natural(oldType.marks) ==>
      Encloses(newType.marks, Repeat(Edges(oldType.marks), count, 0, oldType.Extent()), oldType.marks.align)
  {
    newType := new Datatype();
    if count != 0 {
      ghost var edges := newType.AddOwn(oldType, count, 0, oldType.Extent(), []);
      assert edges == Repeat(Edges(oldType.marks), count, 0, oldType.Extent());
    }
  }

  /** Shifting the data itself takes a new datatype: a resize only moves the bounds. */
  method Place(lastType: Datatype, displ: int, extent: int) returns (newType: Datatype)
    requires lastType.Valid()
    ensures fresh(newType) && newType.Valid()
    ensures newType.typemap == Shift(lastType.typemap, displ) && newType.Extent() == extent
    ensures newType.marks.bounded && newType.marks.lb == 0 && newType.marks.ub == extent
  {
    RepeatOne(lastType.typemap, displ, Spacing(lastType.marks, extent));
    newType := new Datatype();
    newType.Add(lastType, 1, displ, extent);
    newType.Resize(0, extent);
  }

  /** Three elements of 4 bytes, each one byte before the one before: the bytes
      from 0 to 6 ask for an extent of 8, and it becomes 12. */
  method PaddedTwice() returns (t: Datatype)
    ensures fresh(t) && t.typemap == [Entry(2, 7), Entry(1, 7), Entry(0, 7)]
    ensures t.marks == Marks(true, 0, 12, false, false, 4) && RoundedTop(0, 6, 4) == 8
  {
    var basic := new Datatype();
    basic.typemap, basic.marks := [Entry(0, 7)], Marks(true, 0, 4, false, false, 4);
    t := new Datatype();
    RepeatOne(basic.typemap, 2, 4);
    t.Add(basic, 1, 2, 4);
    assert t.marks == Marks(true, 2, 6, false, false, 4);
    RepeatOne(basic.typemap, 1, 4);
    t.Add(basic, 1, 1, 4);
    assert t.marks == Marks(true, 1, 9, false, false, 4);
    RepeatOne(basic.typemap, 0, 4);
    t.Add(basic, 1, 0, 4);
  }
}
