/** Datatype descriptions, their packed form, and what a packed form takes. */
module Descriptions {
  import opened Options

  datatype Combiner =
    | CombNamed | CombDup | CombContiguous | CombVector | CombHVectorInteger | CombHVector | CombIndexed
    | CombHIndexedInteger | CombHIndexed | CombIndexedBlock | CombStructInteger | CombStruct | CombSubarray
    | CombDarray | CombF90Real | CombF90Complex | CombF90Integer | CombResized | CombHIndexedBlock

  const COMBINERS := [
    CombNamed, CombDup, CombContiguous, CombVector, CombHVectorInteger, CombHVector, CombIndexed,
    CombHIndexedInteger, CombHIndexed, CombIndexedBlock, CombStructInteger, CombStruct, CombSubarray,
    CombDarray, CombF90Real, CombF90Complex, CombF90Integer, CombResized, CombHIndexedBlock]

  /** The value of a combiner in the C enumeration. */
  function Code(c: Combiner): nat {
    match c
    case CombNamed => 0 case CombDup => 1 case CombContiguous => 2 case CombVector => 3
    case CombHVectorInteger => 4 case CombHVector => 5 case CombIndexed => 6 case CombHIndexedInteger => 7
    case CombHIndexed => 8 case CombIndexedBlock => 9 case CombStructInteger => 10 case CombStruct => 11
    case CombSubarray => 12 case CombDarray => 13 case CombF90Real => 14 case CombF90Complex => 15
    case CombF90Integer => 16 case CombResized => 17 case CombHIndexedBlock => 18
  }

  /** Predefined ids are below this value, nested descriptions are numbered from it. */
  const MAX_PREDEFINED := 47

  /** How a datatype was made: a predefined one, or a constructor applied to
      integers, addresses and other datatypes. */
  datatype Desc = Named(id: nat) | Derived(combiner: Combiner, i: seq<int>, a: seq<int>, d: seq<Desc>)

  /** The number of integers, addresses and datatypes that the constructor of
      this combiner records, as far as its first integers determine it. */
  function Arity(c: Combiner, i: seq<int>): Option<(int, int, int)> {
    match c
    case CombDup => Some((0, 0, 1))
    case CombContiguous => Some((1, 0, 1))
    case CombVector => Some((3, 0, 1))
    case CombHVectorInteger => Some((2, 1, 1))
    case CombHVector => Some((2, 1, 1))
    case CombIndexed => if |i| < 1 then None else Some((2 * i[0] + 1, 0, 1))
    case CombHIndexedInteger => if |i| < 1 then None else Some((i[0] + 1, i[0], 1))
    case CombHIndexed => if |i| < 1 then None else Some((i[0] + 1, i[0], 1))
    case CombIndexedBlock => if |i| < 1 then None else Some((i[0] + 2, 0, 1))
    case CombStructInteger => if |i| < 1 then None else Some((i[0] + 1, i[0], i[0]))
    case CombStruct => if |i| < 1 then None else Some((i[0] + 1, i[0], i[0]))
    case CombSubarray => if |i| < 1 then None else Some((3 * i[0] + 2, 0, 1))
    case CombDarray => if |i| < 3 then None else Some((4 * i[2] + 4, 0, 1))
    case CombResized => Some((0, 2, 1))
    case CombHIndexedBlock => if |i| < 1 then None else Some((2, i[0], 1))
    case _ => None
  }

  /** A description that the constructors can have recorded. */
  predicate WellFormed(t: Desc) {
    match t
    case Named(id) => id < MAX_PREDEFINED
    case Derived(c, i, a, d) =>
      && Arity(c, i) == Some((|i|, |a|, |d|))
      && forall k :: 0 <= k < |d| ==> WellFormed(d[k])
  }

  /** What the constructors with a fixed number of arguments record. */
  lemma FixedArguments(i: seq<int>, a: seq<int>, d: seq<Desc>)
    ensures WellFormed(Derived(CombDup, i, a, d)) <==> i == [] && a == [] && |d| == 1 && WellFormed(d[0])
    ensures WellFormed(Derived(CombContiguous, i, a, d)) <==> |i| == 1 && a == [] && |d| == 1 && WellFormed(d[0])
    ensures WellFormed(Derived(CombVector, i, a, d)) <==> |i| == 3 && a == [] && |d| == 1 && WellFormed(d[0])
    ensures WellFormed(Derived(CombHVector, i, a, d)) <==> |i| == 2 && |a| == 1 && |d| == 1 && WellFormed(d[0])
    ensures WellFormed(Derived(CombResized, i, a, d)) <==> i == [] && |a| == 2 && |d| == 1 && WellFormed(d[0])
  {}

  predicate AllWellFormed(ds: seq<Desc>) {
    forall k :: 0 <= k < |ds| ==> WellFormed(ds[k])
  }

  // ----- packing: a sequence of 4-byte words -----

  const TWO_32 := 0x1_0000_0000

  /** An address takes two words. */
  function AddressWords(a: seq<int>): seq<int> {
    if a == [] then [] else [a[0] / TWO_32, a[0] % TWO_32] + AddressWords(a[1..])
  }

  /** The packed form of t, nested descriptions being numbered from `index` on;
      also the next free number. */
  function Pack(t: Desc, index: nat): (r: (seq<int>, nat))
    requires WellFormed(t)
    ensures r.1 >= index
    decreases t, 1
  {
    match t
    case Named(id) => ([Code(CombNamed), id], index)
    case Derived(c, i, a, d) =>
      if c == CombDup then Pack(d[0], index)
      else
        var (ids, nested, next) := PackAll(d, index);
        ([Code(c), |i|, |a|, |d|] + (AddressWords(a) + (ids + (i + nested))), next)
  }

  /** The ids of a list of datatypes and the packed forms of the derived ones. */
  function PackAll(ds: seq<Desc>, index: nat): (r: (seq<int>, seq<int>, nat))
    requires AllWellFormed(ds)
    ensures |r.0| == |ds| && r.2 >= index
    decreases ds, 0
  {
    if ds == [] then ([], [], index)
    else if ds[0].Named? then
      var (ids, nested, next) := PackAll(ds[1..], index);
      ([ds[0].id] + ids, nested, next)
    else
      var (words, after) := Pack(ds[0], index + 1);
      var (ids, nested, next) := PackAll(ds[1..], after);
      ([index] + ids, words + nested, next)
  }

  // ----- unpacking -----

  function Addresses(words: seq<int>): seq<int>
    requires |words| % 2 == 0
  {
    if words == [] then [] else [words[0] * TWO_32 + words[1]] + Addresses(words[2..])
  }

  function CombinerOf(code: int): Option<Combiner> {
    if 0 <= code < |COMBINERS| then Some(COMBINERS[code]) else None
  }

  /** The combiner under which a constructor is recorded again. */
  function Recorded(c: Combiner): Combiner {
    match c
    case CombHVectorInteger => CombHVector
    case CombHIndexedInteger => CombHIndexed
    case CombStructInteger => CombStruct
    case _ => c
  }

  /** Calling the constructor again on unpacked arguments; it records as many of
      them as its first integers say.  A duplicate is never packed, and the
      Fortran 90 types are not rebuilt. */
  function Rebuild(c: Combiner, i: seq<int>, a: seq<int>, d: seq<Desc>): Option<Desc> {
    if c == CombDup then None
    else
      match Arity(c, i)
      case None => None
      case Some((ci, ca, cd)) =>
        if 0 <= ci <= |i| && 0 <= ca <= |a| && 0 <= cd <= |d|
        then Some(Derived(Recorded(c), i[..ci], a[..ca], d[..cd]))
        else None
  }

  /** The fields of a description's fixed part, and the words after it. */
  datatype Frame = Frame(combiner: int, a: seq<int>, ids: seq<int>, i: seq<int>, rest: seq<int>)

  function Split(words: seq<int>): (r: Option<Frame>)
    ensures r.Some? ==> |r.value.rest| < |words|
  {
    if |words| < 4 then None else SplitAddresses(words[0], words[1], words[2], words[3], words[4..])
  }

  /** The parts are cut off one after the other, as the reading pointer moves. */
  function SplitAddresses(code: int, ci: int, ca: int, cd: int, words: seq<int>): (r: Option<Frame>)
    ensures r.Some? ==> |r.value.rest| <= |words|
  {
    if 0 <= 2 * ca <= |words| then SplitIds(code, ci, Addresses(words[..2 * ca]), cd, words[2 * ca..]) else None
  }

  function SplitIds(code: int, ci: int, a: seq<int>, cd: int, words: seq<int>): (r: Option<Frame>)
    ensures r.Some? ==> |r.value.rest| <= |words|
  {
    if 0 <= cd <= |words| then SplitInts(code, ci, a, words[..cd], words[cd..]) else None
  }

  function SplitInts(code: int, ci: int, a: seq<int>, ids: seq<int>, words: seq<int>): (r: Option<Frame>)
    ensures r.Some? ==> |r.value.rest| <= |words|
  {
    if 0 <= ci <= |words| then Some(Frame(code, a, ids, words[..ci], words[ci..])) else None
  }

  /** Rebuilds the description that starts the buffer, and what follows it. */
  function Unpack(words: seq<int>): (r: Option<(Desc, seq<int>)>)
    ensures r.Some? ==> |r.value.1| < |words|
    decreases |words|, 1, 0
  {
    if |words| < 2 then None
    else if words[0] == Code(CombNamed) then
      if 0 <= words[1] < MAX_PREDEFINED then Some((Named(words[1]), words[2..])) else None
    else
      match Split(words)
      case None => None
      case Some(f) =>
        assert |f.rest| < |words|;
        match UnpackAll(f.ids, f.rest)
        case None => None
        case Some((d, rest)) =>
          match CombinerOf(f.combiner)
          case None => None
          case Some(c) =>
            match Rebuild(c, f.i, f.a, d)
            case None => None
            case Some(t) => Some((t, rest))
  }

  function UnpackAll(ids: seq<int>, words: seq<int>): (r: Option<(seq<Desc>, seq<int>)>)
    ensures r.Some? ==> |r.value.0| == |ids| && |r.value.1| <= |words|
    decreases |words|, 2, |ids|
  {
    if ids == [] then Some(([], words))
    else if ids[0] < MAX_PREDEFINED then
      if ids[0] < 0 then None
      else
        match UnpackAll(ids[1..], words)
        case None => None
        case Some((d, rest)) => Some(([Named(ids[0])] + d, rest))
    else
      match Unpack(words)
      case None => None
      case Some((t, after)) =>
        match UnpackAll(ids[1..], after)
        case None => None
        case Some((d, rest)) => Some(([t] + d, rest))
  }

  // ----- the round trip -----

  /** What a description becomes: duplicates are replaced by what they
      duplicate, and the integer variants by the address variants. */
  function Normal(t: Desc): Desc
    requires WellFormed(t)
    decreases t, 1
  {
    match t
    case Named(id) => t
    case Derived(c, i, a, d) => if c == CombDup then Normal(d[0]) else Derived(Recorded(c), i, a, NormalAll(d))
  }

  function NormalAll(ds: seq<Desc>): (r: seq<Desc>)
    requires AllWellFormed(ds)
    ensures |r| == |ds|
    decreases ds, 0
  {
    if ds == [] then [] else [Normal(ds[0])] + NormalAll(ds[1..])
  }

  lemma {:induction false} AddressRoundTrip(a: seq<int>)
    ensures |AddressWords(a)| == 2 * |a| && Addresses(AddressWords(a)) == a
  {
    if a != [] {
      AddressRoundTrip(a[1..]);
      var w := AddressWords(a);
      assert w[2..] == AddressWords(a[1..]);
      assert w[0] * TWO_32 + w[1] == a[0];
    }
  }

  lemma CombinerRoundTrip(c: Combiner)
    ensures CombinerOf(Code(c)) == Some(c)
  {}

  lemma Assoc(a: seq<int>, b: seq<int>, c: seq<int>)
    ensures (a + b) + c == a + (b + c)
  {}

  lemma Cut(a: seq<int>, b: seq<int>)
    ensures (a + b)[..|a|] == a && (a + b)[|a|..] == b
  {}

  lemma CutHeader(code: int, ci: int, ca: int, cd: int, words: seq<int>)
    ensures Split([code, ci, ca, cd] + words) == SplitAddresses(code, ci, ca, cd, words)
  {
    Cut([code, ci, ca, cd], words);
  }

  lemma CutAddresses(code: int, ci: int, a: seq<int>, cd: int, words: seq<int>)
    ensures SplitAddresses(code, ci, |a|, cd, AddressWords(a) + words) == SplitIds(code, ci, a, cd, words)
  {
    AddressRoundTrip(a);
    Cut(AddressWords(a), words);
  }

  lemma CutIds(code: int, ci: int, a: seq<int>, ids: seq<int>, words: seq<int>)
    ensures SplitIds(code, ci, a, |ids|, ids + words) == SplitInts(code, ci, a, ids, words)
  {
    Cut(ids, words);
  }

  lemma CutInts(code: int, i: seq<int>, a: seq<int>, ids: seq<int>, words: seq<int>)
    ensures SplitInts(code, |i|, a, ids, i + words) == Some(Frame(code, a, ids, i, words))
  {
    Cut(i, words);
  }

  lemma SplitPacked(code: int, i: seq<int>, a: seq<int>, ids: seq<int>, rest: seq<int>)
    ensures Split([code, |i|, |a|, |ids|] + (AddressWords(a) + (ids + (i + rest))))
        == Some(Frame(code, a, ids, i, rest))
  {
    CutHeader(code, |i|, |a|, |ids|, AddressWords(a) + (ids + (i + rest)));
    CutAddresses(code, |i|, a, |ids|, ids + (i + rest));
    CutIds(code, |i|, a, ids, i + rest);
    CutInts(code, i, a, ids, rest);
  }

  lemma AppendTail(header: seq<int>, aw: seq<int>, ids: seq<int>, i: seq<int>, nested: seq<int>, tail: seq<int>)
    ensures header + (aw + (ids + (i + nested))) + tail == header + (aw + (ids + (i + (nested + tail))))
  {
    Assoc(header, aw + (ids + (i + nested)), tail);
    Assoc(aw, ids + (i + nested), tail);
    Assoc(ids, i + nested, tail);
    Assoc(i, nested, tail);
  }

  predicate OneRoundTrip(t: Desc, index: nat, tail: seq<int>)
    requires WellFormed(t)
  {
    Unpack(Pack(t, index).0 + tail) == Some((Normal(t), tail))
  }

  predicate ListRoundTrip(ds: seq<Desc>, index: nat, tail: seq<int>)
    requires AllWellFormed(ds)
  {
    UnpackAll(PackAll(ds, index).0, PackAll(ds, index).1 + tail) == Some((NormalAll(ds), tail))
  }

  /** Unpacking rebuilds the normal form and consumes exactly what packing wrote. */
  lemma {:induction false} RoundTrip(t: Desc, index: nat, tail: seq<int>)
    requires WellFormed(t) && index >= MAX_PREDEFINED
    ensures OneRoundTrip(t, index, tail)
    decreases t, 2
  {
    match t
    case Named(id) =>
      assert ([Code(CombNamed), id] + tail)[2..] == tail;
    case Derived(c, i, a, d) =>
      if c == CombDup {
        RoundTrip(d[0], index, tail);
      } else {
        var (ids, nested, next) := PackAll(d, index);
        AppendTail([Code(c), |i|, |a|, |d|], AddressWords(a), ids, i, nested, tail);
        SplitPacked(Code(c), i, a, ids, nested + tail);
        RoundTripAll(d, index, tail);
        CombinerRoundTrip(c);
        RebuildWellFormed(c, i, a, NormalAll(d));
      }
  }

  lemma RebuildWellFormed(c: Combiner, i: seq<int>, a: seq<int>, d: seq<Desc>)
    requires c != CombDup && Arity(c, i) == Some((|i|, |a|, |d|))
    ensures Rebuild(c, i, a, d) == Some(Derived(Recorded(c), i, a, d))
  {
    assert i[..|i|] == i && a[..|a|] == a && d[..|d|] == d;
  }

  lemma NamedFirst(ds: seq<Desc>, index: nat, tail: seq<int>)
    requires AllWellFormed(ds) && ds != [] && ds[0].Named? && ListRoundTrip(ds[1..], index, tail)
    ensures ListRoundTrip(ds, index, tail)
  {
    var (ids, nested, next) := PackAll(ds[1..], index);
    assert WellFormed(ds[0]);
    UnpackNamed(ds[0].id, ids, nested + tail);
  }

  /** Where the numbering continues, and what follows, after a first nested description. */
  function NumberAfter(ds: seq<Desc>, index: nat): nat
    requires AllWellFormed(ds) && ds != []
  {
    Pack(ds[0], index + 1).1
  }

  function WordsAfter(ds: seq<Desc>, index: nat, tail: seq<int>): seq<int>
    requires AllWellFormed(ds) && ds != []
  {
    PackAll(ds[1..], NumberAfter(ds, index)).1 + tail
  }

  lemma NestedFirst(ds: seq<Desc>, index: nat, tail: seq<int>)
    requires AllWellFormed(ds) && ds != [] && ds[0].Derived? && index >= MAX_PREDEFINED
    requires OneRoundTrip(ds[0], index + 1, WordsAfter(ds, index, tail))
    requires ListRoundTrip(ds[1..], NumberAfter(ds, index), tail)
    ensures ListRoundTrip(ds, index, tail)
  {
    var (words, after) := Pack(ds[0], index + 1);
    var (ids, nested, next) := PackAll(ds[1..], after);
    Assoc(words, nested, tail);
    UnpackNested(index, ids, words + (nested + tail));
  }

  lemma EmptyList(index: nat, tail: seq<int>)
    ensures ListRoundTrip([], index, tail)
  {
    assert [] + tail == tail;
  }

  lemma {:induction false} RoundTripNested(ds: seq<Desc>, index: nat, tail: seq<int>)
    requires AllWellFormed(ds) && ds != [] && ds[0].Derived? && index >= MAX_PREDEFINED
    ensures ListRoundTrip(ds, index, tail)
    decreases ds, 0
  {
    RoundTrip(ds[0], index + 1, WordsAfter(ds, index, tail));
    RoundTripAll(ds[1..], NumberAfter(ds, index), tail);
    NestedFirst(ds, index, tail);
  }

  lemma {:induction false} RoundTripAll(ds: seq<Desc>, index: nat, tail: seq<int>)
    requires AllWellFormed(ds) && index >= MAX_PREDEFINED
    ensures ListRoundTrip(ds, index, tail)
    decreases ds, 1
  {
    if ds == [] {
      EmptyList(index, tail);
    } else if ds[0].Named? {
      RoundTripAll(ds[1..], index, tail);
      NamedFirst(ds, index, tail);
    } else {
      RoundTripNested(ds, index, tail);
    }
  }

  lemma UnpackNamed(id: nat, ids: seq<int>, words: seq<int>)
    requires id < MAX_PREDEFINED && UnpackAll(ids, words).Some?
    ensures UnpackAll([id] + ids, words) ==
        Some(([Named(id)] + UnpackAll(ids, words).value.0, UnpackAll(ids, words).value.1))
  {
    assert ([id] + ids)[1..] == ids;
  }

  lemma UnpackNested(index: nat, ids: seq<int>, words: seq<int>)
    requires index >= MAX_PREDEFINED && Unpack(words).Some?
    requires UnpackAll(ids, Unpack(words).value.1).Some?
    ensures var (t, after) := Unpack(words).value;
      var (d, rest) := UnpackAll(ids, after).value;
      UnpackAll([index] + ids, words) == Some(([t] + d, rest))
  {
    assert ([index] + ids)[1..] == ids;
  }

  // ----- the normal form -----

  /** No duplicate and no integer variant, at any depth. */
  predicate Plain(t: Desc) {
    match t
    case Named(_) => true
    case Derived(c, _, _, d) =>
      && c != CombDup && c != CombHVectorInteger && c != CombHIndexedInteger && c != CombStructInteger
      && AllPlain(d)
  }

  predicate AllPlain(ds: seq<Desc>) {
    forall k :: 0 <= k < |ds| ==> Plain(ds[k])
  }

  lemma {:induction false} NormalIsPlain(t: Desc)
    requires WellFormed(t)
    ensures Plain(Normal(t)) && WellFormed(Normal(t))
    decreases t, 1
  {
    if t.Derived? {
      if t.combiner == CombDup { NormalIsPlain(t.d[0]); } else { AllNormalArePlain(t.d); }
    }
  }

  lemma {:induction false} AllNormalArePlain(ds: seq<Desc>)
    requires AllWellFormed(ds)
    ensures AllPlain(NormalAll(ds)) && AllWellFormed(NormalAll(ds))
    decreases ds, 0
  {
    if ds != [] {
      NormalIsPlain(ds[0]);
      AllNormalArePlain(ds[1..]);
    }
  }

  /** A description without duplicates and integer variants is its own normal form. */
  lemma {:induction false} PlainIsNormal(t: Desc)
    requires WellFormed(t) && Plain(t)
    ensures Normal(t) == t
    decreases t, 1
  {
    if t.Derived? { AllPlainAreNormal(t.d); }
  }

  lemma {:induction false} AllPlainAreNormal(ds: seq<Desc>)
    requires AllWellFormed(ds) && AllPlain(ds)
    ensures NormalAll(ds) == ds
    decreases ds, 0
  {
    if ds != [] {
      PlainIsNormal(ds[0]);
      AllPlainAreNormal(ds[1..]);
    }
  }

  /** The three constructors with a Fortran binding that takes integers for addresses. */
  predicate IntegerVariant(c: Combiner, plain: Combiner) {
    || (c == CombHVectorInteger && plain == CombHVector)
    || (c == CombHIndexedInteger && plain == CombHIndexed)
    || (c == CombStructInteger && plain == CombStruct)
  }

  /** A duplicate is normalised like its target, an integer variant like the
      address variant with the same arguments, anything else piece by piece. */
  lemma NormalByCases(t: Desc, plain: Combiner)
    requires WellFormed(t) && t.Derived?
    ensures t.combiner == CombDup ==> Normal(t) == Normal(t.d[0])
    ensures IntegerVariant(t.combiner, plain) ==>
        WellFormed(t.(combiner := plain)) && Normal(t) == Normal(t.(combiner := plain))
    ensures t.combiner != CombDup && Plain(t.(d := [])) ==> Normal(t) == t.(d := NormalAll(t.d))
  {}

  /** What a receiver rebuilds holds no duplicate and no integer variant, and is
      the very description that was packed if that held none. */
  lemma RebuiltIsPlain(t: Desc, tail: seq<int>)
    requires WellFormed(t)
    ensures var r := Unpack(Pack(t, MAX_PREDEFINED).0 + tail);
      r.Some? && Plain(r.value.0) && (r.value.0 == t <==> Plain(t))
  {
    RoundTrip(t, MAX_PREDEFINED, tail);
    NormalIsPlain(t);
    if Plain(t) { PlainIsNormal(t); }
  }

  /** Integer variants arrive as the address variants. */
  lemma VariantsArriveAlike(t: Desc, plain: Combiner, tail: seq<int>)
    requires WellFormed(t) && t.Derived? && IntegerVariant(t.combiner, plain)
    ensures WellFormed(t.(combiner := plain))
    ensures Unpack(Pack(t, MAX_PREDEFINED).0 + tail) == Unpack(Pack(t.(combiner := plain), MAX_PREDEFINED).0 + tail)
  {
    NormalByCases(t, plain);
    hide Pack, Unpack, Normal;
    RoundTrip(t, MAX_PREDEFINED, tail);
    RoundTrip(t.(combiner := plain), MAX_PREDEFINED, tail);
  }
}
