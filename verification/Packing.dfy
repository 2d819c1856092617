/** Packing in place: the size that is charged to a datatype in advance, the
    proof that it suffices, and the recursive writer into a buffer of that size. */
module Packing {
  import opened Descriptions
  import opened Options

  const INT_SIZE := 4
  const ADDRESS_SIZE := 8

  // ----- how many words a description takes -----

  function Words(t: Desc): nat
    requires WellFormed(t)
    decreases t, 1
  {
    match t
    case Named(_) => 2
    case Derived(c, i, a, d) => if c == CombDup then Words(d[0]) else 4 + 2 * |a| + |d| + |i| + NestedWords(d)
  }

  function NestedWords(ds: seq<Desc>): nat
    requires AllWellFormed(ds)
    decreases ds, 0
  {
    if ds == [] then 0 else (if ds[0].Named? then 0 else Words(ds[0])) + NestedWords(ds[1..])
  }

  lemma {:induction false} PackLength(t: Desc, index: nat)
    requires WellFormed(t)
    ensures |Pack(t, index).0| == Words(t)
    decreases t, 1
  {
    if t.Derived? {
      if t.combiner == CombDup {
        PackLength(t.d[0], index);
      } else {
        PackAllLength(t.d, index);
        AddressRoundTrip(t.a);
      }
    }
  }

  lemma {:induction false} PackAllLength(ds: seq<Desc>, index: nat)
    requires AllWellFormed(ds)
    ensures |PackAll(ds, index).1| == NestedWords(ds)
    decreases ds, 0
  {
    if ds != [] {
      if ds[0].Named? {
        PackAllLength(ds[1..], index);
      } else {
        PackLength(ds[0], index + 1);
        PackAllLength(ds[1..], Pack(ds[0], index + 1).1);
      }
    }
  }

  // ----- the size charged in advance -----

  /** `totals[k]` is what has been charged to the k-th datatype, if it is derived. */
  function Charged(ds: seq<Desc>, totals: seq<nat>): nat
    requires |totals| == |ds|
  {
    if ds == [] then 0
    else
      var n := |ds| - 1;
      Charged(ds[..n], totals[..n]) + (if ds[n].Named? then 0 else totals[n]) + INT_SIZE
  }

  /** What recording a constructor charges: nothing of its own for a duplicate. */
  function TotalPackSize(c: Combiner, ci: nat, ca: nat, ds: seq<Desc>, totals: seq<nat>): nat
    requires |totals| == |ds|
  {
    (if c == CombDup then 0 else (4 + ci + |ds|) * INT_SIZE + ca * ADDRESS_SIZE) + Charged(ds, totals)
  }

  method SetArgs(c: Combiner, ci: nat, ca: nat, ds: seq<Desc>, totals: seq<nat>) returns (totalPackSize: nat)
    requires |totals| == |ds|
    ensures totalPackSize == TotalPackSize(c, ci, ca, ds, totals)
  {
    totalPackSize := (4 + ci + |ds|) * INT_SIZE + ca * ADDRESS_SIZE;
    if c == CombDup { totalPackSize := 0; }
    var own := totalPackSize;
    for pos := 0 to |ds|
      invariant totalPackSize == own + Charged(ds[..pos], totals[..pos])
    {
      assert ds[..pos + 1][..pos] == ds[..pos] && totals[..pos + 1][..pos] == totals[..pos];
      if !ds[pos].Named? { totalPackSize := totalPackSize + totals[pos]; }
      totalPackSize := totalPackSize + INT_SIZE;
    }
    assert ds[..|ds|] == ds && totals[..|ds|] == totals;
  }

  /** The invariant of every recorded size, whenever and however often sizes
      are reassessed: short by at most one integer. */
  predicate Budgeted(t: Desc, total: nat)
    requires WellFormed(t)
  {
    INT_SIZE * Words(t) <= total + INT_SIZE
  }

  predicate AllBudgeted(ds: seq<Desc>, totals: seq<nat>)
    requires AllWellFormed(ds) && |totals| == |ds|
  {
    forall k :: 0 <= k < |ds| && ds[k].Derived? ==> Budgeted(ds[k], totals[k])
  }

  lemma {:induction false} NestedSnoc(ds: seq<Desc>, t: Desc)
    requires AllWellFormed(ds) && WellFormed(t)
    ensures AllWellFormed(ds + [t])
    ensures NestedWords(ds + [t]) == NestedWords(ds) + (if t.Named? then 0 else Words(t))
  {
    if ds == [] {
      assert [] + [t] == [t];
      assert [t][1..] == [];
    } else {
      NestedSnoc(ds[1..], t);
      assert (ds + [t])[1..] == ds[1..] + [t];
    }
  }

  /** The integer charged per datatype absorbs the one its size may be short by. */
  lemma {:induction false} ChargedSuffices(ds: seq<Desc>, totals: seq<nat>)
    requires AllWellFormed(ds) && |totals| == |ds| && AllBudgeted(ds, totals)
    ensures INT_SIZE * NestedWords(ds) <= Charged(ds, totals)
    decreases |ds|
  {
    if ds != [] {
      var n := |ds| - 1;
      ChargedSuffices(ds[..n], totals[..n]);
      NestedSnoc(ds[..n], ds[n]);
      assert ds == ds[..n] + [ds[n]];
    }
  }

  /** The one kind of datatype whose charge does not cover its packed form. */
  predicate DupOfNamed(t: Desc) {
    t.Derived? && t.combiner == CombDup && |t.d| == 1 && t.d[0].Named?
  }

  /** Packing never exceeds the charge, except that a duplicate made directly
      of a predefined datatype always exceeds it, by one integer. */
  lemma PackFits(t: Desc, totals: seq<nat>)
    requires t.Derived? && WellFormed(t) && |totals| == |t.d| && AllBudgeted(t.d, totals)
    ensures var total := TotalPackSize(t.combiner, |t.i|, |t.a|, t.d, totals);
      && Budgeted(t, total)
      && (INT_SIZE * Words(t) <= total <==> !DupOfNamed(t))
  {
    ChargedSuffices(t.d, totals);
    if t.combiner == CombDup {
      assert t.d[..0] == [] && totals[..0] == [];
      assert Charged(t.d, totals) == (if t.d[0].Named? then 0 else totals[0]) + INT_SIZE;
    }
  }

  /** The datatypes have exactly what they take on record. */
  predicate Exact(ds: seq<Desc>, totals: seq<nat>)
    requires AllWellFormed(ds)
  {
    |totals| == |ds| && forall k :: 0 <= k < |ds| && ds[k].Derived? ==> totals[k] == 4 * Words(ds[k])
  }

  lemma {:induction false} ChargedExact(ds: seq<Desc>, totals: seq<nat>)
    requires AllWellFormed(ds) && Exact(ds, totals)
    ensures Charged(ds, totals) == 4 * NestedWords(ds) + 4 * |ds|
    decreases |ds|
  {
    if ds != [] {
      var n := |ds| - 1;
      ChargedExact(ds[..n], totals[..n]);
      NestedSnoc(ds[..n], ds[n]);
      assert ds == ds[..n] + [ds[n]];
    }
  }

  /** Over exact sizes the charge is too large by exactly one integer per
      datatype, and too small by one for a duplicate of a predefined one. */
  lemma ChargeOverExact(t: Desc, totals: seq<nat>)
    requires t.Derived? && WellFormed(t) && Exact(t.d, totals)
    ensures TotalPackSize(t.combiner, |t.i|, |t.a|, t.d, totals)
         == 4 * |Pack(t, MAX_PREDEFINED).0| + (if DupOfNamed(t) then -4 else 4 * |t.d|)
  {
    PackLength(t, MAX_PREDEFINED);
    ChargedExact(t.d, totals);
    if t.combiner == CombDup {
      assert NestedWords(t.d[1..]) == 0;
    }
  }

  /** The sizes that datatype t may have on record: what its constructor charged
      at a time when its own datatypes had possible sizes, or what packing it wrote. */
  ghost predicate PossibleTotal(t: Desc, total: nat)
    requires t.Derived? && WellFormed(t)
    decreases t, 0
  {
    || total == INT_SIZE * Words(t)
    || exists totals: seq<nat> ::
        PossibleTotals(t.d, totals) && total == TotalPackSize(t.combiner, |t.i|, |t.a|, t.d, totals)
  }

  ghost predicate PossibleTotals(ds: seq<Desc>, totals: seq<nat>)
    requires AllWellFormed(ds)
    decreases ds, 0
  {
    |totals| == |ds| && forall k :: 0 <= k < |ds| && ds[k].Derived? ==> PossibleTotal(ds[k], totals[k])
  }

  /** However nested the datatype and however often sizes were reassessed, the
      charge is short by at most one integer ... */
  lemma {:induction false} AlwaysBudgeted(t: Desc, total: nat)
    requires t.Derived? && WellFormed(t) && PossibleTotal(t, total)
    ensures Budgeted(t, total)
    decreases t
  {
    if total != INT_SIZE * Words(t) {
      var totals: seq<nat> :| PossibleTotals(t.d, totals) &&
          total == TotalPackSize(t.combiner, |t.i|, |t.a|, t.d, totals);
      AllAlwaysBudgeted(t.d, totals);
      PackFits(t, totals);
    }
  }

  lemma {:induction false} AllAlwaysBudgeted(ds: seq<Desc>, totals: seq<nat>)
    requires AllWellFormed(ds) && PossibleTotals(ds, totals)
    ensures AllBudgeted(ds, totals)
    decreases ds
  {
    forall k | 0 <= k < |ds| && ds[k].Derived?
      ensures Budgeted(ds[k], totals[k])
    {
      AlwaysBudgeted(ds[k], totals[k]);
    }
  }

  /** ... and it is short exactly for a fresh duplicate of a predefined datatype. */
  lemma ShortOnlyForDupOfNamed(t: Desc, total: nat)
    requires t.Derived? && WellFormed(t) && PossibleTotal(t, total)
    ensures INT_SIZE * Words(t) > total <==> DupOfNamed(t) && total != INT_SIZE * Words(t)
  {
    if total != INT_SIZE * Words(t) {
      var totals: seq<nat> :| PossibleTotals(t.d, totals) &&
          total == TotalPackSize(t.combiner, |t.i|, |t.a|, t.d, totals);
      AllAlwaysBudgeted(t.d, totals);
      PackFits(t, totals);
    }
  }

  // ----- writing into the buffer -----

  /** s with `words` written one after the other from position `from` on. */
  function Overwritten(s: seq<int>, from: nat, words: seq<int>): (r: seq<int>)
    requires from + |words| <= |s|
    ensures |r| == |s|
    decreases |words|
  {
    if words == [] then s else Overwritten(s, from, words[..|words| - 1])[from + |words| - 1 := words[|words| - 1]]
  }

  lemma {:induction false} OverwrittenParts(s: seq<int>, from: nat, words: seq<int>)
    requires from + |words| <= |s|
    ensures Overwritten(s, from, words) == s[..from] + (words + s[from + |words|..])
    decreases |words|
  {
    if words != [] {
      var n := |words| - 1;
      OverwrittenParts(s, from, words[..n]);
      assert words == words[..n] + [words[n]];
      assert s[from + n..] == [s[from + n]] + s[from + n + 1..];
      ReplaceOne(s[..from], words[..n], s[from + n], s[from + n + 1..], words[n]);
    }
  }

  lemma ReplaceOne(a: seq<int>, b: seq<int>, x: int, c: seq<int>, y: int)
    ensures (a + (b + ([x] + c)))[|a| + |b| := y] == a + ((b + [y]) + c)
  {}

  /** The buffer while the nested descriptions are written: `pre`, the ids so
      far, a gap for the other ids, the integers, the nested descriptions so far,
      and the rest. */
  datatype Draft = Draft(pre: seq<int>, ids: seq<int>, ints: seq<int>, nested: seq<int>, rest: seq<int>)

  /** The draft after one more datatype. */
  function WithChild(w: Draft, id: int, words: seq<int>): Draft
    requires |words| <= |w.rest|
  {
    w.(ids := w.ids + [id], nested := w.nested + words, rest := w.rest[|words|..])
  }

  ghost predicate Filled(s: seq<int>, w: Draft, room: nat) {
    var p := |w.pre| + |w.ids|;
    var q := p + room + |w.ints|;
    && |s| == q + |w.nested| + |w.rest|
    && s[..|w.pre|] == w.pre && s[|w.pre|..p] == w.ids && s[p + room..q] == w.ints
    && s[q..q + |w.nested|] == w.nested && s[q + |w.nested|..] == w.rest
  }

  lemma FillId(s: seq<int>, w: Draft, room: nat, x: int)
    requires Filled(s, w, room) && room > 0
    ensures Filled(s[|w.pre| + |w.ids| := x], w.(ids := w.ids + [x]), room - 1)
  {
    var slot := |w.pre| + |w.ids|;
    var s' := s[slot := x];
    var q := slot + room;
    var r := q + |w.ints|;
    assert s'[..|w.pre|] == s[..|w.pre|] && s'[|w.pre|..slot] == s[|w.pre|..slot];
    assert s'[q..r] == s[q..r] && s'[r..r + |w.nested|] == s[r..r + |w.nested|];
    assert s'[r + |w.nested|..] == s[r + |w.nested|..];
  }

  /** Overwriting the start of the rest by one more nested description. */
  lemma FillNested(s: seq<int>, w: Draft, room: nat, words: seq<int>, s': seq<int>)
    requires Filled(s, w, room) && |words| <= |w.rest| <= |s|
    requires s' == s[..|s| - |w.rest|] + (words + s[|s| - |w.rest| + |words|..])
    ensures Filled(s', w.(nested := w.nested + words, rest := w.rest[|words|..]), room)
  {
    var c, p, q := |s| - |w.rest|, |w.pre|, |w.pre| + |w.ids| + room;
    var r := q + |w.ints|;
    Cut(s[..c], words + s[c + |words|..]);
    Cut(words, s[c + |words|..]);
    SamePart(s, s', c, 0, p);
    SamePart(s, s', c, p, p + |w.ids|);
    SamePart(s, s', c, q, r);
    SamePart(s, s', c, r, c);
    Consecutive(s', r, c, |words|);
    SameRest(s, s', c, |words|);
    FilledParts(s', w.(nested := w.nested + words, rest := w.rest[|words|..]), room);
  }

  lemma FilledParts(s: seq<int>, w: Draft, room: nat)
    requires |s| == |w.pre| + |w.ids| + room + |w.ints| + |w.nested| + |w.rest|
    requires s[0..|w.pre|] == w.pre && s[|w.pre|..|w.pre| + |w.ids|] == w.ids
    requires var q := |w.pre| + |w.ids| + room;
      && s[q..q + |w.ints|] == w.ints && s[q + |w.ints|..q + |w.ints| + |w.nested|] == w.nested
      && s[q + |w.ints| + |w.nested|..] == w.rest
    ensures Filled(s, w, room)
  {
    assert s[0..|w.pre|] == s[..|w.pre|];
  }

  lemma SameRest(s: seq<int>, s': seq<int>, c: nat, n: nat)
    requires c + n <= |s| && c + n <= |s'| && s'[c..][n..] == s[c + n..]
    ensures s'[c + n..] == s[c + n..] == s[c..][n..]
  {
    assert s'[c + n..] == s'[c..][n..];
  }

  lemma SamePart(s: seq<int>, s': seq<int>, c: nat, from: nat, to: nat)
    requires c <= |s| && c <= |s'| && s[..c] == s'[..c] && from <= to <= c
    ensures s'[from..to] == s[from..to]
  {
    assert s'[from..to] == s'[..c][from..to] && s[from..to] == s[..c][from..to];
  }

  lemma Consecutive(s: seq<int>, from: nat, mid: nat, n: nat)
    requires from <= mid && mid + n <= |s|
    ensures s[from..mid + n] == s[from..mid] + s[mid..][..n]
  {}

  lemma FillDone(s: seq<int>, w: Draft)
    requires Filled(s, w, 0)
    ensures s == w.pre + (w.ids + (w.ints + (w.nested + w.rest)))
  {
    var p := |w.pre| + |w.ids|;
    var q := p + |w.ints|;
    var r := q + |w.nested|;
    assert s[q..] == s[q..r] + s[r..];
    assert s[p..] == s[p..q] + s[q..];
    assert s[|w.pre|..] == s[|w.pre|..p] + s[p..];
    assert s == s[..|w.pre|] + s[|w.pre|..];
  }

  method SetWord(buf: array<int>, slot: nat, x: int)
    requires slot < buf.Length
    modifies buf
    ensures buf[..] == old(buf[..])[slot := x]
  {
    buf[slot] := x;
  }

  /** Copies `words` into the buffer. */
  method WriteAt(buf: array<int>, from: nat, words: seq<int>)
    requires from + |words| <= buf.Length
    modifies buf
    ensures buf[..] == Overwritten(old(buf[..]), from, words)
  {
    ghost var s := buf[..];
    for k := 0 to |words|
      invariant buf[..] == Overwritten(s, from, words[..k])
    {
      assert words[..k + 1][..k] == words[..k];
      SetWord(buf, from + k, words[k]);
    }
    assert words[..|words|] == words;
  }

  /** Header, addresses and integers; the words for the ids are skipped. */
  function WithFixed(s: seq<int>, at: nat, header: seq<int>, addresses: seq<int>, room: nat,
                     ints: seq<int>): (r: seq<int>)
    requires at + |header| + |addresses| + room + |ints| <= |s|
    ensures |r| == |s|
  {
    var h := at + |header|;
    Overwritten(Overwritten(Overwritten(s, at, header), h, addresses), h + |addresses| + room, ints)
  }

  method WriteFixed(buf: array<int>, at: nat, header: seq<int>, addresses: seq<int>, room: nat, ints: seq<int>)
    requires at + |header| + |addresses| + room + |ints| <= buf.Length
    modifies buf
    ensures buf[..] == WithFixed(old(buf[..]), at, header, addresses, room, ints)
  {
    WriteAt(buf, at, header);
    WriteAt(buf, at + |header|, addresses);
    WriteAt(buf, at + |header| + |addresses| + room, ints);
  }

  lemma FixedParts(s: seq<int>, s1: seq<int>, s2: seq<int>, s3: seq<int>, at: nat, header: seq<int>,
                   addresses: seq<int>,
                   room: nat, ints: seq<int>)
    requires at + |header| + |addresses| + room + |ints| <= |s| == |s1| == |s2| == |s3|
    requires s1 == s[..at] + (header + s[at + |header|..])
    requires s2 == s1[..at + |header|] + (addresses + s1[at + |header| + |addresses|..])
    requires var q := at + |header| + |addresses| + room; s3 == s2[..q] + (ints + s2[q + |ints|..])
    ensures Filled(s3, Draft(s[..at] + (header + addresses), [], ints, [],
                             s[at + |header| + |addresses| + room + |ints|..]), room)
  {
    var h := at + |header| + |addresses|;
    assert s1[..at + |header|] == s[..at] + header;
    assert s2[..h] == s1[..at + |header|] + addresses;
    assert s2[..h] == s[..at] + (header + addresses);
    assert s3[..h] == s2[..h];
    assert s1[h + room + |ints|..] == s[h + room + |ints|..];
    assert s2[h + room + |ints|..] == s1[h + room + |ints|..];
    assert s3[h + room + |ints|..] == s2[h + room + |ints|..];
  }

  lemma FixedFilled(s: seq<int>, at: nat, header: seq<int>, addresses: seq<int>, room: nat, ints: seq<int>)
    requires at + |header| + |addresses| + room + |ints| <= |s|
    ensures Filled(WithFixed(s, at, header, addresses, room, ints),
                   Draft(s[..at] + (header + addresses), [], ints, [],
                         s[at + |header| + |addresses| + room + |ints|..]), room)
  {
    hide Overwritten, Filled;
    var h := at + |header|;
    var s1 := Overwritten(s, at, header);
    var s2 := Overwritten(s1, h, addresses);
    var s3 := Overwritten(s2, h + |addresses| + room, ints);
    assert s1 == s[..at] + (header + s[at + |header|..]) by { OverwrittenParts(s, at, header); }
    assert s2 == s1[..h] + (addresses + s1[h + |addresses|..]) by { OverwrittenParts(s1, h, addresses); }
    var q := h + |addresses| + room;
    assert s3 == s2[..q] + (ints + s2[q + |ints|..]) by { OverwrittenParts(s2, q, ints); }
    FixedParts(s, s1, s2, s3, at, header, addresses, room, ints);
  }

  /** Packs t at position `at`; `index` numbers the nested descriptions. */
  method PackInto(t: Desc, buf: array<int>, at: nat, index: nat) returns (next: nat, nextIndex: nat)
    requires WellFormed(t) && at + Words(t) <= buf.Length
    modifies buf
    ensures next == at + Words(t) && nextIndex == Pack(t, index).1 && |Pack(t, index).0| == Words(t)
    ensures buf[..] == Overwritten(old(buf[..]), at, Pack(t, index).0)
    decreases t, 2
  {
    PackLength(t, index);
    match t
    case Named(id) =>
      WriteAt(buf, at, [Code(CombNamed), id]);
      next, nextIndex := at + 2, index;
    case Derived(c, i, a, d) =>
      if c == CombDup {
        next, nextIndex := PackInto(d[0], buf, at, index);
      } else {
        next, nextIndex := PackDerived(c, i, a, d, buf, at, index);
      }
  }

  method PackDerived(c: Combiner, i: seq<int>, a: seq<int>, d: seq<Desc>, buf: array<int>, at: nat, index: nat)
      returns (next: nat, nextIndex: nat)
    requires AllWellFormed(d) && at + (4 + 2 * |a| + |d| + |i| + NestedWords(d)) <= buf.Length
    modifies buf
    ensures next == at + (4 + 2 * |a| + |d| + |i| + NestedWords(d)) && nextIndex == PackAll(d, index).2
    ensures var (ids, nested, _) := PackAll(d, index);
      var words := [Code(c), |i|, |a|, |d|] + (AddressWords(a) + (ids + (i + nested)));
      |words| == next - at && buf[..] == Overwritten(old(buf[..]), at, words)
    decreases d, 1
  {
    AddressRoundTrip(a);
    PackAllLength(d, index);
    var header, addresses := [Code(c), |i|, |a|, |d|], AddressWords(a);
    ghost var before := buf[..];
    var position, from := at + 4 + 2 * |a|, at + 4 + 2 * |a| + |d| + |i|;
    FixedFilled(before, at, header, addresses, |d|, i);
    WriteFixed(buf, at, header, addresses, |d|, i);
    ghost var w := Draft(before[..at] + (header + addresses), [], i, [], before[from..]);
    next, nextIndex := PackChildren(d, buf, position, from, index, w);
    DerivedWritten(before, at, header, addresses, PackAll(d, index).0, i, PackAll(d, index).1, from, buf[..]);
  }

  lemma DerivedWritten(before: seq<int>, at: nat, header: seq<int>, aw: seq<int>, ids: seq<int>, i: seq<int>,
                       nested: seq<int>, from: nat,
                       after: seq<int>)
    requires from == at + |header| + |aw| + |ids| + |i| && from + |nested| <= |before|
    requires after == before[..at] + (header + aw) + (ids + (i + (nested + before[from..][|nested|..])))
    ensures var words := header + (aw + (ids + (i + nested)));
      at + |words| == from + |nested| && after == Overwritten(before, at, words)
  {
    OverwrittenParts(before, at, header + (aw + (ids + (i + nested))));
    assert before[from..][|nested|..] == before[from + |nested|..];
    PackedWhole(before[..at], header, aw, ids, i, nested, before[from + |nested|..]);
  }

  lemma PackedWhole(pre: seq<int>, header: seq<int>, aw: seq<int>, ids: seq<int>, i: seq<int>, nested: seq<int>,
                    post: seq<int>)
    ensures (pre + (header + aw)) + (ids + (i + (nested + post))) ==
        pre + ((header + (aw + (ids + (i + nested)))) + post)
  {
    AppendTail(header, aw, ids, i, nested, post);
    Assoc(pre, header + aw, ids + (i + (nested + post)));
    Assoc(header, aw, ids + (i + (nested + post)));
  }

  /** After |ids| datatypes: what has been produced, followed by what packing
      the others from number `number` on produces, is the whole. */
  ghost predicate SoFar(d: seq<Desc>, index: nat, ids: seq<int>, nested: seq<int>, number: nat) {
    var k := |ids|;
    && AllWellFormed(d) && k <= |d| && AllWellFormed(d[k..])
    && var (ids', nested', next) := PackAll(d[k..], number);
       && PackAll(d, index) == (ids + ids', nested + nested', next)
       && |nested| + NestedWords(d[k..]) == NestedWords(d)
  }

  lemma SoFarStart(d: seq<Desc>, index: nat)
    requires AllWellFormed(d)
    ensures SoFar(d, index, [], [], index)
  {
    assert d[0..] == d;
    var (ids, nested, next) := PackAll(d, index);
    assert [] + ids == ids && [] + nested == nested;
  }

  lemma SoFarNamed(d: seq<Desc>, index: nat, ids: seq<int>, nested: seq<int>, number: nat)
    requires SoFar(d, index, ids, nested, number) && |ids| < |d| && d[|ids|].Named?
    ensures SoFar(d, index, ids + [d[|ids|].id], nested, number)
  {
    var k := |ids|;
    assert d[k..][1..] == d[k + 1..] && d[k..][0] == d[k];
    Assoc(ids, [d[k].id], PackAll(d[k + 1..], number).0);
  }

  lemma SoFarNested(d: seq<Desc>, index: nat, ids: seq<int>, nested: seq<int>, number: nat)
    requires SoFar(d, index, ids, nested, number) && |ids| < |d| && d[|ids|].Derived?
    ensures var (words, after) := Pack(d[|ids|], number + 1);
      |words| == Words(d[|ids|]) && SoFar(d, index, ids + [number], nested + words, after)
  {
    var k := |ids|;
    assert d[k..][1..] == d[k + 1..] && d[k..][0] == d[k];
    var (words, after) := Pack(d[k], number + 1);
    PackLength(d[k], number + 1);
    Assoc(ids, [number], PackAll(d[k + 1..], after).0);
    Assoc(nested, words, PackAll(d[k + 1..], after).1);
  }

  lemma SoFarDone(d: seq<Desc>, index: nat, ids: seq<int>, nested: seq<int>, number: nat)
    requires SoFar(d, index, ids, nested, number) && |ids| == |d|
    ensures PackAll(d, index) == (ids, nested, number) && |nested| == NestedWords(d)
  {
    assert d[|d|..] == [];
    assert ids + [] == ids && nested + [] == nested;
  }

  /** The state of the loop over the datatypes a description refers to. */
  ghost predicate Packing(s: seq<int>, d: seq<Desc>, index: nat, w: Draft, number: nat) {
    && SoFar(d, index, w.ids, w.nested, number) && NestedWords(d) <= |w.nested| + |w.rest|
    && Filled(s, w, |d| - |w.ids|)
  }

  /** A predefined datatype is written as its id. */
  method PackNamed(d: seq<Desc>, k: nat, buf: array<int>, slot: nat, ghost index: nat, ghost number: nat,
                   ghost w: Draft)
    requires k == |w.ids| < |d| && d[k].Named? && slot == |w.pre| + k && slot < buf.Length
    requires Packing(buf[..], d, index, w, number)
    modifies buf
    ensures Packing(buf[..], d, index, w.(ids := w.ids + [d[k].id]), number)
  {
    hide SoFar, Filled;
    SoFarNamed(d, index, w.ids, w.nested, number);
    FillId(buf[..], w, |d| - k, d[k].id);
    SetWord(buf, slot, d[k].id);
  }

  /** s with position `slot` set to `number` and `words` written at `from` is s2. */
  ghost predicate Spliced(s: seq<int>, slot: nat, number: int, from: nat, words: seq<int>, s2: seq<int>) {
    && slot < |s| && from + |words| <= |s|
    && var s1 := s[slot := number]; s2 == s1[..from] + (words + s1[from + |words|..])
  }

  lemma FillStep(s: seq<int>, w: Draft, room: nat, number: nat, words: seq<int>, s2: seq<int>)
    requires Filled(s, w, room) && room > 0 && |words| <= |w.rest| <= |s|
    requires Spliced(s, |w.pre| + |w.ids|, number, |s| - |w.rest|, words, s2)
    ensures Filled(s2, WithChild(w, number, words), room - 1)
  {
    FillId(s, w, room, number);
    FillNested(s[|w.pre| + |w.ids| := number], w.(ids := w.ids + [number]), room - 1, words, s2);
  }

  lemma SoFarRoom(d: seq<Desc>, index: nat, ids: seq<int>, nested: seq<int>, number: nat)
    requires SoFar(d, index, ids, nested, number) && |ids| < |d| && d[|ids|].Derived?
    ensures |nested| + Words(d[|ids|]) <= NestedWords(d)
  {
    assert d[|ids|..][0] == d[|ids|];
  }

  lemma RoomForId(s: seq<int>, d: seq<Desc>, index: nat, w: Draft, number: nat)
    requires Packing(s, d, index, w, number) && |w.ids| < |d|
    ensures |w.pre| + |w.ids| < |s| && |w.rest| <= |s|
  {}

  lemma NestedRoom(s: seq<int>, d: seq<Desc>, index: nat, w: Draft, number: nat)
    requires Packing(s, d, index, w, number) && |w.ids| < |d| && d[|w.ids|].Derived?
    ensures WellFormed(d[|w.ids|]) && |w.pre| + |w.ids| < |s| && Words(d[|w.ids|]) <= |w.rest| <= |s|
  {
    SoFarRoom(d, index, w.ids, w.nested, number);
  }

  lemma NestedStep(s: seq<int>, d: seq<Desc>, index: nat, w: Draft, number: nat, words: seq<int>, after: nat,
                   s2: seq<int>)
    requires Packing(s, d, index, w, number) && |w.ids| < |d| && d[|w.ids|].Derived?
    requires Pack(d[|w.ids|], number + 1) == (words, after) && |words| == Words(d[|w.ids|]) <= |w.rest| <= |s|
    requires Spliced(s, |w.pre| + |w.ids|, number, |s| - |w.rest|, words, s2)
    ensures Packing(s2, d, index, WithChild(w, number, words), after)
  {
    SoFarNested(d, index, w.ids, w.nested, number);
    FillStep(s, w, |d| - |w.ids|, number, words, s2);
  }

  /** A derived datatype gets a number and is packed behind the others. */
  method PackNested(d: seq<Desc>, k: nat, buf: array<int>, slot: nat, from: nat, number: nat, ghost index: nat,
                    ghost w: Draft,
                    ghost words: seq<int>, ghost after: nat)
    returns (next: nat, nextIndex: nat)
    requires k == |w.ids| < |d| && d[k].Derived? && slot == |w.pre| + k && from == buf.Length - |w.rest|
    requires Packing(buf[..], d, index, w, number)
    requires Pack(d[k], number + 1) == (words, after) && |words| == Words(d[k])
    modifies buf
    ensures next == from + |words| && nextIndex == after && |words| <= |w.rest|
    ensures Packing(buf[..], d, index, WithChild(w, number, words), after)
    decreases d[k], 4
  {
    hide SoFar, Filled, Packing, Spliced, Pack, Words;
    ghost var was := buf[..];
    NestedRoom(was, d, index, w, number);
    next, nextIndex := PackNumbered(d[k], buf, slot, from, number, words, after, was);
    NestedStep(was, d, index, w, number, words, after, buf[..]);
  }

  /** Writes the number of a nested description and packs it at `from`. */
  method PackNumbered(t: Desc, buf: array<int>, slot: nat, from: nat, number: nat, ghost words: seq<int>,
                      ghost after: nat,
                      ghost was: seq<int>)
    returns (next: nat, nextIndex: nat)
    requires WellFormed(t) && Pack(t, number + 1) == (words, after) && |words| == Words(t)
    requires slot < buf.Length && from + |words| <= buf.Length && was == buf[..]
    modifies buf
    ensures next == from + |words| && nextIndex == after
    ensures Spliced(was, slot, number, from, words, buf[..])
    decreases t, 3
  {
    SetWord(buf, slot, number);
    next, nextIndex := PackInto(t, buf, from, number + 1);
    OverwrittenParts(was[slot := number], from, words);
  }

  /** `rest` is what is left of `post` behind the first `used` words. */
  ghost predicate Behind(post: seq<int>, used: nat, rest: seq<int>) {
    used <= |post| && rest == post[used..]
  }

  lemma BehindMore(post: seq<int>, used: nat, rest: seq<int>, n: nat)
    requires Behind(post, used, rest) && n <= |rest|
    ensures Behind(post, used + n, rest[n..])
  {
    assert post[used..][n..] == post[used + n..];
  }

  lemma PackingDone(s: seq<int>, d: seq<Desc>, index: nat, w: Draft, number: nat, post: seq<int>)
    requires AllWellFormed(d) && NestedWords(d) <= |post| && Behind(post, |w.nested|, w.rest)
    requires Packing(s, d, index, w, number) && |w.ids| == |d|
    ensures |w.nested| == NestedWords(d) && number == PackAll(d, index).2
    ensures s == w.pre + (PackAll(d, index).0 + (w.ints + (PackAll(d, index).1 + post[NestedWords(d)..])))
  {
    SoFarDone(d, index, w.ids, w.nested, number);
    FillDone(s, w);
  }

  /** One datatype a description refers to. */
  method PackChild(d: seq<Desc>, k: nat, buf: array<int>, slot: nat, from: nat, number: nat, ghost index: nat,
                   ghost w: Draft)
    returns (next: nat, nextIndex: nat, ghost id: int, ghost words: seq<int>)
    requires k == |w.ids| < |d| && slot == |w.pre| + k && slot < buf.Length && from == buf.Length - |w.rest|
    requires Packing(buf[..], d, index, w, number)
    modifies buf
    ensures next == from + |words| && |words| <= |w.rest|
    ensures Packing(buf[..], d, index, WithChild(w, id, words), nextIndex)
    decreases d[k], 5
  {
    if d[k].Named? {
      PackNamed(d, k, buf, slot, index, number, w);
      next, nextIndex, id, words := from, number, d[k].id, [];
      assert w.nested + [] == w.nested && w.rest[0..] == w.rest;
    } else {
      ghost var (nested, after) := Pack(d[k], number + 1);
      PackLength(d[k], number + 1);
      next, nextIndex := PackNested(d, k, buf, slot, from, number, index, w, nested, after);
      id, words := number, nested;
    }
  }

  /** The loop over the datatypes a description refers to. */
  method PackChildren(d: seq<Desc>, buf: array<int>, position: nat, from: nat, index: nat, ghost start: Draft)
    returns (next: nat, nextIndex: nat)
    requires AllWellFormed(d) && position == |start.pre| && from == buf.Length - |start.rest|
    requires start.ids == start.nested == [] && Filled(buf[..], start, |d|) && NestedWords(d) <= |start.rest|
    modifies buf
    ensures next == from + NestedWords(d) && nextIndex == PackAll(d, index).2
    ensures buf[..]
      == start.pre + (PackAll(d, index).0 + (start.ints + (PackAll(d, index).1 + start.rest[NestedWords(d)..])))
    decreases d, 0
  {
    hide SoFar, Filled, PackAll;
    next, nextIndex := from, index;
    ghost var w := start;
    SoFarStart(d, index);
    for k := 0 to |d|
      invariant |w.ids| == k && next == from + |w.nested| && Behind(start.rest, |w.nested|, w.rest)
      invariant w.pre == start.pre && w.ints == start.ints && Packing(buf[..], d, index, w, nextIndex)
    {
      ghost var id, words;
      RoomForId(buf[..], d, index, w, nextIndex);
      next, nextIndex, id, words := PackChild(d, k, buf, position + k, next, nextIndex, index, w);
      BehindMore(start.rest, |w.nested|, w.rest, |words|);
      w := WithChild(w, id, words);
    }
    PackingDone(buf[..], d, index, w, nextIndex, start.rest);
  }

  /** The packed description of a datatype, and the size reassessed from what
      was written.  `size` words belong to the buffer; `buf` is the memory
      from its start as far as packing reaches, and `overrun`, the code's own
      assertion, says whether that is farther than the buffer. */
  method GetPackDescription(t: Desc, totalPackSize: nat)
      returns (buf: array<int>, size: nat, newTotal: nat, overrun: bool)
    requires WellFormed(t)
    ensures size == if t.Named? then 2 else totalPackSize / INT_SIZE
    ensures fresh(buf) && buf.Length == if Words(t) > size then Words(t) else size
    ensures newTotal == INT_SIZE * Words(t) && (overrun <==> Words(t) > size)
    ensures t.Derived? && PossibleTotal(t, totalPackSize) ==> (overrun <==> DupOfNamed(t) && totalPackSize != newTotal)
    ensures Words(t) <= buf.Length && buf[..Words(t)] == Pack(t, MAX_PREDEFINED).0
    ensures Unpack(buf[..]) == Some((Normal(t), buf[Words(t)..]))
  {
    size := if t.Named? then 2 else totalPackSize / INT_SIZE;
    buf := new int[if Words(t) > size then Words(t) else size];
    ghost var blank := buf[..];
    var next, nextIndex := PackInto(t, buf, 0, MAX_PREDEFINED);
    newTotal := next * INT_SIZE;
    overrun := t.Derived? && totalPackSize < newTotal;
    if t.Derived? && PossibleTotal(t, totalPackSize) { ShortOnlyForDupOfNamed(t, totalPackSize); }
    ghost var words := Pack(t, MAX_PREDEFINED).0;
    OverwrittenParts(blank, 0, words);
    assert buf[..Words(t)] == words;
    RoundTrip(t, MAX_PREDEFINED, buf[Words(t)..]);
    assert buf[..] == words + buf[Words(t)..];
  }

  /** A duplicate of a predefined type takes two words in a buffer of one. */
  method PackDuplicate() returns (buf: array<int>, overrun: bool)
    ensures overrun && fresh(buf) && buf[..] == [Code(CombNamed), 6]
  {
    var t := Derived(CombDup, [], [], [Named(6)]);
    var total := SetArgs(CombDup, 0, 0, t.d, [0]);
    assert t.d[..0] == [] && [0][..0] == [] && Charged(t.d, [0]) == INT_SIZE;
    var size, newTotal;
    buf, size, newTotal, overrun := GetPackDescription(t, total);
    assert buf[..2] == buf[..];
  }
}
