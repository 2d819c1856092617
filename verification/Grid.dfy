/** Sub-grids of an n-dimensional array stored with dimension 0 fastest.
    `sizes[k]` is the extent of dimension k, `picks[k]` the coordinates kept along it. */
module Grid {
  import opened Arithmetic
  import opened TypeMaps

  /** The number of elements, which is also the stride of the next dimension. */
  function Volume(sizes: seq<nat>): nat {
    if sizes == [] then 1 else Volume(sizes[..|sizes| - 1]) * sizes[|sizes| - 1]
  }

  /** One copy of `inner` for every coordinate of `xs`, `stride` elements apart. */
  function Spread(inner: seq<int>, xs: seq<int>, stride: int): seq<int> {
    if xs == [] then []
    else Spread(inner, xs[..|xs| - 1], stride) + OffsetBy(inner, xs[|xs| - 1] * stride)
  }

  /** Linear indices of the kept elements, slowest dimension outermost. */
  function Offsets(sizes: seq<nat>, picks: seq<seq<int>>): seq<int>
    requires |sizes| == |picks|
  {
    if sizes == [] then [0]
    else
      var n := |sizes| - 1;
      Spread(Offsets(sizes[..n], picks[..n]), picks[n], Volume(sizes[..n]))
  }

  /** The coordinate along dimension k of the element at linear index e. */
  function Coord(sizes: seq<nat>, e: nat, k: nat): nat
    requires k < |sizes| && Volume(sizes) > 0
  {
    VolumePositive(sizes, k);
    (e / Volume(sizes[..k])) % sizes[k]
  }

  predicate Increasing(s: seq<int>) {
    forall i, j :: 0 <= i < j < |s| ==> s[i] < s[j]
  }

  predicate Within(s: seq<int>, n: nat) {
    forall i :: 0 <= i < |s| ==> 0 <= s[i] < n
  }

  predicate Legal(sizes: seq<nat>, picks: seq<seq<int>>) {
    && |sizes| == |picks| && Volume(sizes) > 0
    && forall k :: 0 <= k < |sizes| ==> Increasing(picks[k]) && Within(picks[k], sizes[k])
  }

  lemma {:induction false} VolumePositive(sizes: seq<nat>, k: nat)
    requires k <= |sizes| && Volume(sizes) > 0
    ensures Volume(sizes[..k]) > 0 && (k < |sizes| ==> sizes[k] > 0)
    decreases |sizes|
  {
    var n := |sizes| - 1;
    if k == |sizes| {
      assert sizes[..k] == sizes;
    } else {
      assert Volume(sizes[..n]) != 0 && sizes[n] != 0;
      VolumePositive(sizes[..n], if k < n then k else n);
      assert sizes[..n][..k] == sizes[..k];
    }
  }

  // ----- the algebra of Spread -----

  lemma {:induction false} SpreadConcat(inner: seq<int>, xs: seq<int>, ys: seq<int>, stride: int)
    ensures Spread(inner, xs + ys, stride) == Spread(inner, xs, stride) + Spread(inner, ys, stride)
    decreases |ys|
  {
    if ys == [] {
      assert xs + ys == xs;
    } else {
      var n := |ys| - 1;
      SpreadConcat(inner, xs, ys[..n], stride);
      assert (xs + ys)[..|xs + ys| - 1] == xs + ys[..n];
    }
  }

  lemma {:induction false} SpreadShift(inner: seq<int>, xs: seq<int>, stride: int, d: int)
    ensures Spread(inner, OffsetBy(xs, d), stride) == OffsetBy(Spread(inner, xs, stride), d * stride)
    decreases |xs|
  {
    if xs != [] {
      var n := |xs| - 1;
      SpreadShift(inner, xs[..n], stride, d);
      assert OffsetBy(xs, d)[..n] == OffsetBy(xs[..n], d);
      assert (xs[n] + d) * stride == xs[n] * stride + d * stride;
    }
  }

  lemma {:induction false} SpreadInnerShift(inner: seq<int>, xs: seq<int>, stride: int, d: int)
    ensures Spread(OffsetBy(inner, d), xs, stride) == OffsetBy(Spread(inner, xs, stride), d)
    decreases |xs|
  {
    if xs != [] {
      SpreadInnerShift(inner, xs[..|xs| - 1], stride, d);
    }
  }

  lemma SpreadAppend(inner: seq<int>, xs: seq<int>, ys: seq<int>, stride: int, d: int)
    ensures Spread(inner, xs + OffsetBy(ys, d), stride) ==
        Spread(inner, xs, stride) + OffsetBy(Spread(inner, ys, stride), d * stride)
  {
    SpreadConcat(inner, xs, OffsetBy(ys, d), stride);
    SpreadShift(inner, ys, stride, d);
  }

  lemma {:induction false} SpreadRepeat(inner: seq<int>, xs: seq<int>, stride: int, count: nat, disp: int, step: int)
    ensures Spread(inner, RepeatOffsets(xs, count, disp, step), stride)
         == RepeatOffsets(Spread(inner, xs, stride), count, disp * stride, step * stride)
  {
    if count > 0 {
      var d := disp + (count - 1) * step;
      SpreadRepeat(inner, xs, stride, count - 1, disp, step);
      SpreadAppend(inner, RepeatOffsets(xs, count - 1, disp, step), xs, stride, d);
      ScaleStep(disp, count - 1, step, stride);
    }
  }

  lemma {:induction false} SpreadSpread(inner: seq<int>, xs: seq<int>, ys: seq<int>, outer: int, stride: int)
    ensures Spread(Spread(inner, xs, stride), ys, outer * stride) == Spread(inner, Spread(xs, ys, outer), stride)
    decreases |ys|
  {
    if ys != [] {
      var n := |ys| - 1;
      SpreadSpread(inner, xs, ys[..n], outer, stride);
      SpreadAppend(inner, Spread(xs, ys[..n], outer), xs, stride, ys[n] * outer);
      assert ys[n] * (outer * stride) == ys[n] * outer * stride;
    }
  }

  lemma SpreadOrigin(inner: seq<int>, stride: int)
    ensures Spread(inner, [0], stride) == inner
  {
    assert [0][..0] == [];
  }

  /** `count` consecutive coordinates. */
  function Run(count: nat): seq<int> { seq(count, i => i) }

  lemma {:induction false} RunIsRepeat(count: nat, disp: int)
    ensures RepeatOffsets([0], count, disp, 1) == OffsetBy(Run(count), disp)
  {
    if count > 0 { RunIsRepeat(count - 1, disp); }
  }

  lemma SpreadRun(inner: seq<int>, count: nat, disp: int, stride: int)
    ensures RepeatOffsets(inner, count, disp * stride, stride) == Spread(inner, OffsetBy(Run(count), disp), stride)
  {
    SpreadOrigin(inner, stride);
    SpreadRepeat(inner, [0], stride, count, disp, 1);
    RunIsRepeat(count, disp);
  }

  // ----- moving the kept coordinates along every dimension -----

  function Moved(picks: seq<seq<int>>, starts: seq<int>): seq<seq<int>>
    requires |picks| == |starts|
  {
    seq(|picks|, k requires 0 <= k < |picks| => OffsetBy(picks[k], starts[k]))
  }

  /** Linear index of a coordinate vector. */
  function Linear(sizes: seq<nat>, coords: seq<int>): int
    requires |sizes| == |coords|
  {
    if sizes == [] then 0
    else
      var n := |sizes| - 1;
      Linear(sizes[..n], coords[..n]) + coords[n] * Volume(sizes[..n])
  }

  lemma OffsetTwice(s: seq<int>, a: int, b: int)
    ensures OffsetBy(OffsetBy(s, a), b) == OffsetBy(s, a + b)
  {}

  lemma SpreadMoved(inner: seq<int>, xs: seq<int>, stride: int, d: int, start: int)
    ensures Spread(OffsetBy(inner, d), OffsetBy(xs, start), stride)
        == OffsetBy(Spread(inner, xs, stride), d + start * stride)
  {
    SpreadShift(OffsetBy(inner, d), xs, stride, start);
    SpreadInnerShift(inner, xs, stride, d);
    OffsetTwice(Spread(inner, xs, stride), d, start * stride);
  }

  lemma {:induction false} OffsetsMoved(sizes: seq<nat>, picks: seq<seq<int>>, starts: seq<int>)
    requires |sizes| == |picks| == |starts|
    ensures Offsets(sizes, Moved(picks, starts)) == OffsetBy(Offsets(sizes, picks), Linear(sizes, starts))
    decreases |sizes|
  {
    if sizes != [] {
      var n := |sizes| - 1;
      OffsetsMoved(sizes[..n], picks[..n], starts[..n]);
      assert Moved(picks, starts)[..n] == Moved(picks[..n], starts[..n]);
      SpreadMoved(Offsets(sizes[..n], picks[..n]), picks[n], Volume(sizes[..n]), Linear(sizes[..n], starts[..n]),
                  starts[n]);
    }
  }

  // ----- order and membership -----

  lemma IncreasingConcat(a: seq<int>, b: seq<int>, bound: int)
    requires Increasing(a) && Increasing(b)
    requires forall i :: 0 <= i < |a| ==> a[i] < bound
    requires forall i :: 0 <= i < |b| ==> bound <= b[i]
    ensures Increasing(a + b)
  {
    forall i, j | 0 <= i < j < |a + b| ensures (a + b)[i] < (a + b)[j] {
      if j < |a| {
        assert a[i] < a[j];
      } else if i < |a| {
        assert a[i] < bound <= b[j - |a|];
      } else {
        assert b[i - |a|] < b[j - |a|];
      }
    }
  }

  lemma MulMonotone(a: int, b: int, d: nat)
    requires a <= b
    ensures a * d <= b * d
  {}

  lemma {:induction false} SpreadBelow(inner: seq<int>, xs: seq<int>, stride: nat, bound: int)
    requires Within(inner, stride)
    requires forall i :: 0 <= i < |xs| ==> xs[i] < bound
    ensures forall i :: 0 <= i < |Spread(inner, xs, stride)| ==> Spread(inner, xs, stride)[i] < bound * stride
    decreases |xs|
  {
    if xs != [] {
      var n := |xs| - 1;
      SpreadBelow(inner, xs[..n], stride, bound);
      MulMonotone(xs[n] + 1, bound, stride);
      MulDifference(xs[n] + 1, 1, stride);
    }
  }

  lemma {:induction false} SpreadOrdered(inner: seq<int>, xs: seq<int>, stride: nat)
    requires Increasing(inner) && Within(inner, stride) && Increasing(xs)
    ensures Increasing(Spread(inner, xs, stride))
    decreases |xs|
  {
    if xs != [] {
      var n := |xs| - 1;
      SpreadOrdered(inner, xs[..n], stride);
      SpreadBelow(inner, xs[..n], stride, xs[n]);
      IncreasingConcat(Spread(inner, xs[..n], stride), OffsetBy(inner, xs[n] * stride), xs[n] * stride);
    }
  }

  lemma {:induction false} SpreadMember(inner: seq<int>, xs: seq<int>, stride: nat, e: int)
    requires stride > 0 && Within(inner, stride)
    ensures e in Spread(inner, xs, stride) <==> e / stride in xs && e % stride in inner
    decreases |xs|
  {
    if xs != [] {
      var n := |xs| - 1;
      SpreadMember(inner, xs[..n], stride, e);
      var back := OffsetBy(inner, xs[n] * stride);
      if e in back {
        var i :| 0 <= i < |back| && back[i] == e;
        DivModUnique(e, stride, xs[n], inner[i]);
        assert xs[n] in xs && inner[i] in inner;
      }
      if e / stride == xs[n] && e % stride in inner {
        var i :| 0 <= i < |inner| && inner[i] == e % stride;
        assert e == (e / stride) * stride + e % stride;
        assert back[i] == e;
      }
      assert xs == xs[..n] + [xs[n]];
    }
  }

  /** Coordinates do not depend on the slower dimensions. */
  lemma CoordFront(sizes: seq<nat>, e: nat, k: nat)
    requires Volume(sizes) > 0 && k < |sizes| - 1
    ensures Volume(sizes[..|sizes| - 1]) > 0
    ensures Coord(sizes, e, k) == Coord(sizes[..|sizes| - 1], e % Volume(sizes[..|sizes| - 1]), k)
  {
    var n := |sizes| - 1;
    var v, w, s := Volume(sizes[..n]), Volume(sizes[..k]), sizes[k];
    VolumePositive(sizes, n);
    VolumePositive(sizes, k);
    assert sizes[..n][..k] == sizes[..k] && sizes[..n][k] == s;
    var rest := VolumeFactor(sizes[..n], k);
    ModDivMod(e, v, w, s, rest);
  }

  lemma {:induction false} VolumeFactor(sizes: seq<nat>, k: nat) returns (rest: nat)
    requires k < |sizes|
    ensures Volume(sizes) == Volume(sizes[..k]) * sizes[k] * rest
    decreases |sizes|
  {
    var n := |sizes| - 1;
    if k == n {
      rest := 1;
    } else {
      var r := VolumeFactor(sizes[..n], k);
      assert sizes[..n][..k] == sizes[..k];
      rest := r * sizes[n];
      assert Volume(sizes[..k]) * sizes[k] * r * sizes[n] == Volume(sizes[..k]) * sizes[k] * (r * sizes[n]);
    }
  }

  lemma ModDivMod(e: nat, v: nat, w: nat, s: nat, rest: nat)
    requires w > 0 && s > 0 && v > 0 && v == w * s * rest
    ensures ((e % v) / w) % s == (e / w) % s
  {
    var q, r := e / v, e % v;
    assert e == q * v + r;
    assert r == (r / w) * w + r % w;
    assert q * v == (q * rest * s) * w;
    assert e == (q * rest * s + r / w) * w + r % w by {
      assert (q * rest * s + r / w) * w == (q * rest * s) * w + (r / w) * w;
    }
    DivModUnique(e, w, q * rest * s + r / w, r % w);
    var x := r / w;
    assert x == (x / s) * s + x % s;
    assert e / w == (q * rest + x / s) * s + x % s by {
      assert (q * rest + x / s) * s == q * rest * s + (x / s) * s;
    }
    DivModUnique(e / w, s, q * rest + x / s, x % s);
  }

  lemma CoordLast(sizes: seq<nat>, e: nat)
    requires |sizes| > 0 && e < Volume(sizes)
    ensures Volume(sizes[..|sizes| - 1]) > 0
    ensures Coord(sizes, e, |sizes| - 1) == e / Volume(sizes[..|sizes| - 1])
  {
    var n := |sizes| - 1;
    VolumePositive(sizes, n);
    QuotientBound(e, Volume(sizes[..n]), sizes[n]);
  }

  lemma QuotientBound(e: nat, v: nat, s: nat)
    requires v > 0 && e < v * s
    ensures e / v < s && (e / v) % s == e / v
  {
    DivModUnique(e / v, s, 0, e / v);
  }

  lemma LegalFront(sizes: seq<nat>, picks: seq<seq<int>>)
    requires Legal(sizes, picks) && sizes != []
    ensures Legal(sizes[..|sizes| - 1], picks[..|sizes| - 1])
  {
    VolumePositive(sizes, |sizes| - 1);
  }

  /** The kept elements come in strictly increasing storage order ... */
  lemma {:induction false} OffsetsOrdered(sizes: seq<nat>, picks: seq<seq<int>>)
    requires Legal(sizes, picks)
    ensures Increasing(Offsets(sizes, picks)) && Within(Offsets(sizes, picks), Volume(sizes))
    decreases |sizes|
  {
    if sizes != [] {
      var n := |sizes| - 1;
      var v := Volume(sizes[..n]);
      VolumePositive(sizes, n);
      LegalFront(sizes, picks);
      OffsetsOrdered(sizes[..n], picks[..n]);
      var inner := Offsets(sizes[..n], picks[..n]);
      SpreadOrdered(inner, picks[n], v);
      var all := Spread(inner, picks[n], v);
      forall i | 0 <= i < |all| ensures 0 <= all[i] < Volume(sizes) {
        SpreadMember(inner, picks[n], v, all[i]);
        assert all[i] in all;
        var q :| 0 <= q < |picks[n]| && picks[n][q] == all[i] / v;
        InBox(all[i], v, sizes[n]);
      }
    }
  }

  lemma InBox(e: int, v: nat, s: nat)
    requires v > 0 && 0 <= e / v < s
    ensures 0 <= e < v * s
  {
    assert e == (e / v) * v + e % v;
    assert 0 <= (e / v) * v;
    assert (e / v + 1) * v <= s * v;
  }

  /** All coordinates of e are kept. */
  predicate AllPicked(sizes: seq<nat>, picks: seq<seq<int>>, e: nat)
    requires |sizes| == |picks| && Volume(sizes) > 0
  {
    forall k :: 0 <= k < |sizes| ==> Coord(sizes, e, k) in picks[k]
  }

  lemma AllPickedFront(sizes: seq<nat>, picks: seq<seq<int>>, e: nat)
    requires |sizes| == |picks| > 0 && e < Volume(sizes)
    ensures var n := |sizes| - 1;
      && Volume(sizes[..n]) > 0
      && (AllPicked(sizes, picks, e)
          <==> AllPicked(sizes[..n], picks[..n], e % Volume(sizes[..n])) && e / Volume(sizes[..n]) in picks[n])
  {
    var n := |sizes| - 1;
    var v := Volume(sizes[..n]);
    VolumePositive(sizes, n);
    CoordLast(sizes, e);
    forall k | 0 <= k < n ensures Coord(sizes, e, k) == Coord(sizes[..n], e % v, k) { CoordFront(sizes, e, k); }
    if AllPicked(sizes, picks, e) {
      forall k | 0 <= k < n ensures Coord(sizes[..n], e % v, k) in picks[..n][k] {
        assert Coord(sizes, e, k) in picks[k];
      }
    }
    if AllPicked(sizes[..n], picks[..n], e % v) && e / v in picks[n] {
      forall k | 0 <= k < |sizes| ensures Coord(sizes, e, k) in picks[k] {
        if k < n { assert Coord(sizes[..n], e % v, k) in picks[..n][k]; }
      }
    }
  }

  lemma OffsetsStep(sizes: seq<nat>, picks: seq<seq<int>>, e: int)
    requires Legal(sizes, picks) && sizes != []
    ensures var n := |sizes| - 1;
      && Volume(sizes[..n]) > 0
      && (e in Offsets(sizes, picks)
          <==> e / Volume(sizes[..n]) in picks[n] && e % Volume(sizes[..n]) in Offsets(sizes[..n], picks[..n]))
  {
    var n := |sizes| - 1;
    VolumePositive(sizes, n);
    LegalFront(sizes, picks);
    OffsetsOrdered(sizes[..n], picks[..n]);
    SpreadMember(Offsets(sizes[..n], picks[..n]), picks[n], Volume(sizes[..n]), e);
  }

  /** ... and are exactly the elements all of whose coordinates are kept. */
  lemma {:induction false} OffsetsMember(sizes: seq<nat>, picks: seq<seq<int>>, e: int)
    requires Legal(sizes, picks)
    ensures e in Offsets(sizes, picks) <==> 0 <= e < Volume(sizes) && AllPicked(sizes, picks, e)
    decreases |sizes|
  {
    if !(0 <= e < Volume(sizes)) {
      OffsetsOrdered(sizes, picks);
    } else if sizes != [] {
      var n := |sizes| - 1;
      LegalFront(sizes, picks);
      OffsetsStep(sizes, picks, e);
      OffsetsMember(sizes[..n], picks[..n], e % Volume(sizes[..n]));
      AllPickedFront(sizes, picks, e);
    }
  }

  // ----- linear indices and coordinates are inverse to each other -----

  predicate InGrid(sizes: seq<nat>, coords: seq<int>) {
    |coords| == |sizes| && forall k :: 0 <= k < |sizes| ==> 0 <= coords[k] < sizes[k]
  }

  lemma {:induction false} LinearCoord(sizes: seq<nat>, coords: seq<int>)
    requires Volume(sizes) > 0 && InGrid(sizes, coords)
    ensures 0 <= Linear(sizes, coords) < Volume(sizes)
    ensures forall k :: 0 <= k < |sizes| ==> Coord(sizes, Linear(sizes, coords), k) == coords[k]
    decreases |sizes|
  {
    if sizes != [] {
      var n := |sizes| - 1;
      var v, e := Volume(sizes[..n]), Linear(sizes, coords);
      VolumePositive(sizes, n);
      LinearCoord(sizes[..n], coords[..n]);
      DivModUnique(e, v, coords[n], Linear(sizes[..n], coords[..n]));
      InBox(e, v, sizes[n]);
      CoordLast(sizes, e);
      forall k | 0 <= k < n ensures Coord(sizes, e, k) == coords[k] {
        CoordFront(sizes, e, k);
        assert coords[..n][k] == coords[k];
      }
    }
  }

  lemma {:induction false} CoordLinear(sizes: seq<nat>, e: nat, coords: seq<int>)
    requires e < Volume(sizes) && |coords| == |sizes|
    requires forall k :: 0 <= k < |sizes| ==> coords[k] == Coord(sizes, e, k)
    ensures Linear(sizes, coords) == e
    decreases |sizes|
  {
    if sizes != [] {
      var n := |sizes| - 1;
      var v := Volume(sizes[..n]);
      VolumePositive(sizes, n);
      forall k | 0 <= k < n ensures coords[..n][k] == Coord(sizes[..n], e % v, k) { CoordFront(sizes, e, k); }
      CoordLinear(sizes[..n], e % v, coords[..n]);
      CoordLast(sizes, e);
      assert e == (e / v) * v + e % v;
    }
  }

  // ----- storage orders -----

  datatype Order = RowMajor | ColumnMajor

  /** The user's dimension that is k-th fastest in memory. */
  function DimAt(order: Order, n: nat, k: int): int {
    if order.RowMajor? then n - 1 - k else k
  }

  /** A per-dimension array rearranged so that the fastest dimension comes first. */
  function Fast<T>(order: Order, s: seq<T>): seq<T> {
    seq(|s|, k requires 0 <= k < |s| => s[DimAt(order, |s|, k)])
  }

  lemma VolumeStep(sizes: seq<nat>, k: nat)
    requires k < |sizes|
    ensures Volume(sizes[..k + 1]) == Volume(sizes[..k]) * sizes[k]
  {
    assert sizes[..k + 1][..k] == sizes[..k];
  }

  lemma LinearStep(sizes: seq<nat>, coords: seq<int>, k: nat)
    requires k < |sizes| == |coords|
    ensures Linear(sizes[..k + 1], coords[..k + 1]) == Linear(sizes[..k], coords[..k]) + coords[k] * Volume(sizes[..k])
  {
    assert sizes[..k + 1][..k] == sizes[..k] && coords[..k + 1][..k] == coords[..k];
  }

  lemma OffsetsSnoc(sizes: seq<nat>, picks: seq<seq<int>>, k: nat)
    requires k < |sizes| == |picks|
    ensures Offsets(sizes[..k + 1], picks[..k + 1]) ==
        Spread(Offsets(sizes[..k], picks[..k]), picks[k], Volume(sizes[..k]))
  {
    assert sizes[..k + 1][..k] == sizes[..k] && picks[..k + 1][..k] == picks[..k];
  }

  /** Replicating what the faster dimensions expand to adds one more dimension. */
  lemma ExpandDimension(m: TypeMap, inner: seq<int>, extent: int, count: nat, stride: int)
    ensures Repeat(Expand(m, inner, extent), count, 0, stride * extent)
         == Expand(m, Spread(inner, Run(count), stride), extent)
  {
    RepeatExpand(m, inner, extent, count, 0, stride);
    assert 0 * extent == 0 && 0 * stride == 0;
    SpreadRun(inner, count, 0, stride);
    assert OffsetBy(Run(count), 0) == Run(count);
  }
}
