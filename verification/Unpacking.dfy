/** Unpacking in place: the recursive reader whose position moves through the
    buffer, against the description of what a packed form denotes. */
module Unpacking {
  import opened Descriptions
  import opened Options

  /** `d` is what the ids before `ids'` stood for; the rest is still to be read. */
  ghost predicate Reading(ids: seq<int>, words: seq<int>, d: seq<Desc>, ids': seq<int>, words': seq<int>) {
    && |words'| <= |words|
    && UnpackAll(ids, words) ==
       match UnpackAll(ids', words')
       case None => None
       case Some((d', rest)) => Some((d + d', rest))
  }

  lemma ReadingStarts(ids: seq<int>, words: seq<int>)
    ensures Reading(ids, words, [], ids, words)
  {
    if UnpackAll(ids, words).Some? {
      var d := UnpackAll(ids, words).value.0;
      assert [] + d == d;
    }
  }

  lemma ReadingEnds(ids: seq<int>, words: seq<int>, d: seq<Desc>, ids': seq<int>, words': seq<int>)
    requires Reading(ids, words, d, ids', words') && ids' == []
    ensures UnpackAll(ids, words) == Some((d, words'))
  {
    assert d + [] == d;
  }

  lemma ReadingNamed(ids: seq<int>, words: seq<int>, d: seq<Desc>, ids': seq<int>, words': seq<int>)
    requires Reading(ids, words, d, ids', words') && ids' != [] && 0 <= ids'[0] < MAX_PREDEFINED
    ensures Reading(ids, words, d + [Named(ids'[0])], ids'[1..], words')
  {
    if UnpackAll(ids'[1..], words').Some? {
      var d' := UnpackAll(ids'[1..], words').value.0;
      assert d + ([Named(ids'[0])] + d') == d + [Named(ids'[0])] + d';
    }
  }

  lemma ReadingNested(ids: seq<int>, words: seq<int>, d: seq<Desc>, ids': seq<int>, words': seq<int>, t: Desc,
                      after: seq<int>)
    requires Reading(ids, words, d, ids', words') && ids' != [] && ids'[0] >= MAX_PREDEFINED
    requires Unpack(words') == Some((t, after))
    ensures Reading(ids, words, d + [t], ids'[1..], after)
  {
    if UnpackAll(ids'[1..], after).Some? {
      var d' := UnpackAll(ids'[1..], after).value.0;
      assert d + ([t] + d') == d + [t] + d';
    }
  }

  lemma ReadingFails(ids: seq<int>, words: seq<int>, d: seq<Desc>, ids': seq<int>, words': seq<int>)
    requires Reading(ids, words, d, ids', words') && ids' != []
    requires ids'[0] < 0 || (ids'[0] >= MAX_PREDEFINED && Unpack(words').None?)
    ensures UnpackAll(ids, words).None?
  {}

  /** The positions of the parts of a description that starts at `at`. */
  datatype Layout = Layout(addresses: nat, ids: nat, ints: nat, nested: nat)

  ghost predicate Describes(l: Layout, buf: array<int>, at: nat)
    reads buf
  {
    && at + 4 == l.addresses <= l.ids <= l.ints <= l.nested <= buf.Length
    && (l.ids - l.addresses) % 2 == 0
    && Split(buf[at..]) ==
       Some(Frame(buf[at], Addresses(buf[l.addresses..l.ids]), buf[l.ids..l.ints], buf[l.ints..l.nested],
                  buf[l.nested..]))
  }

  method ReadLayout(buf: array<int>, at: nat) returns (r: Option<Layout>)
    requires at + 2 <= buf.Length
    ensures r.Some? <==> Split(buf[at..]).Some?
    ensures r.Some? ==> Describes(r.value, buf, at)
  {
    if buf.Length - at < 4 { return None; }
    var ci, ca, cd := buf[at + 1], buf[at + 2], buf[at + 3];
    var p := at + 4;
    assert buf[at..][4..] == buf[p..];
    var r1, q := Take(buf, p, 2 * ca);
    if !r1 { return None; }
    var r2, s := Take(buf, q, cd);
    if !r2 { return None; }
    var r3, e := Take(buf, s, ci);
    if !r3 { return None; }
    r := Some(Layout(p, q, s, e));
  }

  /** The reading position moves over n words, if there are so many. */
  method Take(buf: array<int>, at: nat, n: int) returns (ok: bool, end: nat)
    requires at <= buf.Length
    ensures ok <==> 0 <= n <= |buf[at..]|
    ensures ok ==> end == at + n <= buf.Length && buf[at..][..n] == buf[at..end] && buf[at..][n..] == buf[end..]
  {
    ok, end := 0 <= n <= buf.Length - at, at;
    if ok { end := at + n; }
  }

  /** What is made of the parts of a description once its datatypes are rebuilt. */
  function Finish(f: Frame, all: Option<(seq<Desc>, seq<int>)>): Option<(Desc, seq<int>)> {
    if all.None? || CombinerOf(f.combiner).None? then None
    else
      var t := Rebuild(CombinerOf(f.combiner).value, f.i, f.a, all.value.0);
      if t.None? then None else Some((t.value, all.value.1))
  }

  lemma UnpackFinishes(words: seq<int>, f: Frame)
    requires |words| >= 2 && words[0] != Code(CombNamed) && Split(words) == Some(f)
    ensures Unpack(words) == Finish(f, UnpackAll(f.ids, f.rest))
  {}

  lemma NamedUnpacks(words: seq<int>)
    requires |words| >= 2 && words[0] == Code(CombNamed)
    ensures Unpack(words) == if 0 <= words[1] < MAX_PREDEFINED then Some((Named(words[1]), words[2..])) else None
  {}

  /** Rebuilds the datatype described at position `at`, and says where the
      description ends. */
  method UnpackAt(buf: array<int>, at: nat) returns (r: Option<Desc>, next: nat)
    requires at <= buf.Length
    ensures r.None? <==> Unpack(buf[at..]).None?
    ensures r.Some? ==> at < next <= buf.Length && Unpack(buf[at..]) == Some((r.value, buf[next..]))
    decreases buf.Length - at, 1
  {
    if buf.Length - at < 2 { return None, at; }
    if buf[at] == Code(CombNamed) {
      NamedUnpacks(buf[at..]);
      assert buf[at..][2..] == buf[at + 2..];
      r, next := None, at + 2;
      if 0 <= buf[at + 1] < MAX_PREDEFINED { r := Some(Named(buf[at + 1])); }
    } else {
      r, next := UnpackDerived(buf, at);
    }
  }

  method UnpackDerived(buf: array<int>, at: nat) returns (r: Option<Desc>, next: nat)
    requires at + 2 <= buf.Length && buf[at] != Code(CombNamed)
    ensures r.None? <==> Unpack(buf[at..]).None?
    ensures r.Some? ==> at < next <= buf.Length && Unpack(buf[at..]) == Some((r.value, buf[next..]))
    decreases buf.Length - at, 0
  {
    ghost var words := buf[at..];
    var layout := ReadLayout(buf, at);
    if layout.None? { return None, at; }
    var l := layout.value;
    ghost var f := Split(words).value;
    UnpackFinishes(words, f);
    assert f == Frame(buf[at], Addresses(buf[l.addresses..l.ids]), buf[l.ids..l.ints], buf[l.ints..l.nested],
                      buf[l.nested..]);
    hide Unpack, UnpackAll, Split, Addresses, Finish, Assemble;
    var d;
    d, next := UnpackChildren(buf, l.ids, l.ints, l.nested);
    r := Assemble(buf[at], buf[l.ints..l.nested], Addresses(buf[l.addresses..l.ids]), d);
    AssembledIsFinished(f, UnpackAll(f.ids, f.rest), d, buf[next..]);
  }

  lemma AssembledIsFinished(f: Frame, all: Option<(seq<Desc>, seq<int>)>, d: Option<seq<Desc>>, rest: seq<int>)
    requires d.None? <==> all.None?
    requires d.Some? ==> all == Some((d.value, rest))
    ensures var r := Assemble(f.combiner, f.i, f.a, d);
      Finish(f, all) == if r.None? then None else Some((r.value, rest))
  {}

  /** Calls the constructor. */
  function Assemble(code: int, i: seq<int>, a: seq<int>, d: Option<seq<Desc>>): Option<Desc> {
    if d.None? || CombinerOf(code).None? then None else Rebuild(CombinerOf(code).value, i, a, d.value)
  }

  /** The loop over the ids at `position`, up to `end`. */
  method UnpackChildren(buf: array<int>, position: nat, end: nat, at: nat) returns (r: Option<seq<Desc>>, next: nat)
    requires position <= end <= at <= buf.Length
    ensures r.None? <==> UnpackAll(buf[position..end], buf[at..]).None?
    ensures at <= next <= buf.Length
    ensures r.Some? ==> UnpackAll(buf[position..end], buf[at..]) == Some((r.value, buf[next..]))
    decreases buf.Length - at, 2
  {
    hide Unpack, UnpackAll, Reading;
    ghost var ids, words := buf[position..end], buf[at..];
    var d: seq<Desc> := [];
    next := at;
    ReadingStarts(ids, words);
    for k := position to end
      invariant at <= next <= buf.Length
      invariant Reading(ids, words, d, buf[k..end], buf[next..])
    {
      ghost var left := buf[k..end];
      assert left[1..] == buf[k + 1..end];
      if buf[k] < 0 {
        ReadingFails(ids, words, d, left, buf[next..]);
        return None, next;
      } else if buf[k] < MAX_PREDEFINED {
        ReadingNamed(ids, words, d, left, buf[next..]);
        d := d + [Named(buf[k])];
      } else {
        var t, after := UnpackAt(buf, next);
        if t.None? {
          ReadingFails(ids, words, d, left, buf[next..]);
          return None, next;
        }
        ReadingNested(ids, words, d, left, buf[next..], t.value, buf[after..]);
        d, next := d + [t.value], after;
      }
    }
    ReadingEnds(ids, words, d, buf[end..end], buf[next..]);
    r := Some(d);
  }
}
