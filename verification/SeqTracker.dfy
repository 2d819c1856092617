/** The sequence tracker: a compacting list of closed ranges with a remembered
    cursor, which must behave like a plain set of sequence ids. */
module SeqTracker {

  datatype Range = Range(low: nat, high: nat)

  const UINT32_MAX := 0xFFFF_FFFF

  /** 32-bit unsigned arithmetic. */
  function Wrap(x: int): nat { x % 0x1_0000_0000 }

  ghost predicate Covers(ranges: seq<Range>, x: int) {
    exists i :: 0 <= i < |ranges| && ranges[i].low <= x <= ranges[i].high
  }

  /** Sorted, disjoint, not adjacent, and within the 32-bit ids. */
  ghost predicate Compact(ranges: seq<Range>) {
    && (forall i :: 0 <= i < |ranges| ==> ranges[i].low <= ranges[i].high <= UINT32_MAX)
    && (forall i, j :: 0 <= i < j < |ranges| ==> ranges[i].high + 1 < ranges[j].low)
  }

  ghost predicate Denotes(ranges: seq<Range>, ids: set<nat>) {
    forall x :: x in ids <==> Covers(ranges, x)
  }

  // ----- the list is a function of the set it denotes -----

  lemma LastRange(ranges: seq<Range>, x: int)
    requires Compact(ranges) && ranges != []
    ensures var n := |ranges| - 1;
      Covers(ranges[..n], x) <==> Covers(ranges, x) && x < ranges[n].low
  {
    var n := |ranges| - 1;
    if Covers(ranges[..n], x) {
      var i :| 0 <= i < n && ranges[..n][i].low <= x <= ranges[..n][i].high;
      assert ranges[i].high + 1 < ranges[n].low;
    }
    if Covers(ranges, x) && x < ranges[n].low {
      var i :| 0 <= i < |ranges| && ranges[i].low <= x <= ranges[i].high;
      assert ranges[..n][i] == ranges[i];
    }
  }

  lemma GapBelowLast(ranges: seq<Range>)
    requires Compact(ranges) && ranges != []
    ensures !Covers(ranges, ranges[|ranges| - 1].low - 1)
    ensures forall x :: Covers(ranges, x) ==> x <= ranges[|ranges| - 1].high
  {}

  lemma LastBounds(a: seq<Range>, b: seq<Range>)
    requires Compact(a) && Compact(b) && a != [] && b != []
    requires forall x :: Covers(a, x) <==> Covers(b, x)
    ensures a[|a| - 1].high <= b[|b| - 1].high
    ensures a[|a| - 1].high == b[|b| - 1].high ==> a[|a| - 1].low >= b[|b| - 1].low
  {
    assert Covers(a, a[|a| - 1].high);
    GapBelowLast(b);
    assert !Covers(a, b[|b| - 1].low - 1);
  }

  /** Two compact lists that cover the same ids are the same list: neither the
      order of insertion nor the cursor's history can show in it. */
  lemma {:induction false} CompactIsCanonical(a: seq<Range>, b: seq<Range>)
    requires Compact(a) && Compact(b) && forall x :: Covers(a, x) <==> Covers(b, x)
    ensures a == b
    decreases |a|
  {
    if a != [] { assert Covers(a, a[0].low); }
    if b != [] { assert Covers(b, b[0].low); }
    if a != [] && b != [] {
      var m, n := |a| - 1, |b| - 1;
      LastBounds(a, b);
      LastBounds(b, a);
      forall x ensures Covers(a[..m], x) <==> Covers(b[..n], x) {
        LastRange(a, x);
        LastRange(b, x);
      }
      CompactIsCanonical(a[..m], b[..n]);
      assert a == a[..m] + [a[m]] && b == b[..n] + [b[n]];
    }
  }

  lemma SetDeterminesList(a: seq<Range>, b: seq<Range>, ids: set<nat>)
    requires Compact(a) && Compact(b) && Denotes(a, ids) && Denotes(b, ids)
    ensures a == b
  {
    forall x ensures Covers(a, x) <==> Covers(b, x) {
      if x >= 0 { assert x in ids <==> Covers(a, x); assert x in ids <==> Covers(b, x); }
    }
    CompactIsCanonical(a, b);
  }

  // ----- what one insertion does to the list -----

  ghost predicate Adds(ranges: seq<Range>, id: nat, next: seq<Range>) {
    Compact(next) && forall x :: Covers(next, x) <==> Covers(ranges, x) || x == id
  }

  lemma CoversConcat(a: seq<Range>, b: seq<Range>, x: int)
    ensures Covers(a + b, x) <==> Covers(a, x) || Covers(b, x)
  {
    if Covers(a, x) {
      var i :| 0 <= i < |a| && a[i].low <= x <= a[i].high;
      assert (a + b)[i] == a[i];
    }
    if Covers(b, x) {
      var i :| 0 <= i < |b| && b[i].low <= x <= b[i].high;
      assert (a + b)[|a| + i] == b[i];
    }
  }

  lemma CoversOne(r: Range, x: int)
    ensures Covers([r], x) <==> r.low <= x <= r.high
  {
    assert [r][0] == r;
  }

  lemma ReplaceCompact(ranges: seq<Range>, i: nat, j: nat, r: Range)
    requires Compact(ranges) && i <= j <= |ranges| && r.low <= r.high <= UINT32_MAX
    requires i > 0 ==> ranges[i - 1].high + 1 < r.low
    requires j < |ranges| ==> r.high + 1 < ranges[j].low
    ensures Compact(ranges[..i] + [r] + ranges[j..])
  {
    var next := ranges[..i] + [r] + ranges[j..];
    forall p, q | 0 <= p < q < |next| ensures next[p].high + 1 < next[q].low {
      if p < i && i > 0 && p < i - 1 { assert ranges[p].high + 1 < ranges[i - 1].low; }
      if q > i + 1 { assert ranges[j].high + 1 < ranges[j + (q - i - 1)].low; }
    }
  }

  /** Replacing the ranges i..j by one range r is an insertion of id when r
      covers what they did and id, and keeps clear of its neighbours. */
  lemma Replace(ranges: seq<Range>, i: nat, j: nat, r: Range, id: nat)
    requires Compact(ranges) && i <= j <= |ranges| && r.low <= r.high <= UINT32_MAX
    requires i > 0 ==> ranges[i - 1].high + 1 < r.low
    requires j < |ranges| ==> r.high + 1 < ranges[j].low
    requires forall x :: Covers([r], x) <==> Covers(ranges[i..j], x) || x == id
    ensures Adds(ranges, id, ranges[..i] + [r] + ranges[j..])
  {
    ReplaceCompact(ranges, i, j, r);
    var next := ranges[..i] + [r] + ranges[j..];
    forall x ensures Covers(next, x) <==> Covers(ranges, x) || x == id {
      CoversThree(ranges[..i], [r], ranges[j..], x);
      assert ranges == ranges[..i] + ranges[i..j] + ranges[j..];
      CoversThree(ranges[..i], ranges[i..j], ranges[j..], x);
    }
  }

  lemma CoversThree(a: seq<Range>, b: seq<Range>, c: seq<Range>, x: int)
    ensures Covers(a + b + c, x) <==> Covers(a, x) || Covers(b, x) || Covers(c, x)
  {
    CoversConcat(a + b, c, x);
    CoversConcat(a, b, x);
  }

  lemma InsertAlone(ranges: seq<Range>, k: nat, id: nat)
    requires Compact(ranges) && k <= |ranges| && id <= UINT32_MAX
    requires k > 0 ==> ranges[k - 1].high + 1 < id
    requires k < |ranges| ==> id + 1 < ranges[k].low
    ensures Adds(ranges, id, ranges[..k] + [Range(id, id)] + ranges[k..])
  {
    forall x ensures Covers([Range(id, id)], x) <==> Covers(ranges[k..k], x) || x == id {
      CoversOne(Range(id, id), x);
    }
    Replace(ranges, k, k, Range(id, id), id);
  }

  /** Range k grows by id at one end. */
  lemma Stretch(ranges: seq<Range>, k: nat, r: Range, id: nat)
    requires Compact(ranges) && k < |ranges| && id <= UINT32_MAX
    requires || (r == Range(ranges[k].low, id) && ranges[k].high + 1 == id)
             || (r == Range(id, ranges[k].high) && id + 1 == ranges[k].low)
    requires k > 0 ==> ranges[k - 1].high + 1 < r.low
    requires k + 1 < |ranges| ==> r.high + 1 < ranges[k + 1].low
    ensures Adds(ranges, id, ranges[k := r])
  {
    assert ranges[k..k + 1] == [ranges[k]];
    forall x ensures Covers([r], x) <==> Covers(ranges[k..k + 1], x) || x == id {
      CoversOne(r, x);
      CoversOne(ranges[k], x);
    }
    Replace(ranges, k, k + 1, r, id);
    assert ranges[k := r] == ranges[..k] + [r] + ranges[k + 1..];
  }

  /** Ranges k and k+1 with exactly id between them become one. */
  lemma Join(ranges: seq<Range>, k: nat, id: nat)
    requires Compact(ranges) && k + 1 < |ranges|
    requires ranges[k].high + 1 == id && id + 1 == ranges[k + 1].low
    ensures Adds(ranges, id, ranges[..k] + [Range(ranges[k].low, ranges[k + 1].high)] + ranges[k + 2..])
  {
    var r := Range(ranges[k].low, ranges[k + 1].high);
    assert ranges[k..k + 2] == [ranges[k]] + [ranges[k + 1]];
    forall x ensures Covers([r], x) <==> Covers(ranges[k..k + 2], x) || x == id {
      CoversOne(r, x);
      CoversOne(ranges[k], x);
      CoversOne(ranges[k + 1], x);
      CoversConcat([ranges[k]], [ranges[k + 1]], x);
    }
    Replace(ranges, k, k + 2, r, id);
  }

  /** What becomes of a range that id, at the other end of the 32-bit ids, is taken to adjoin. */
  function Inverted(id: nat, r: Range): Range {
    if id == 0 then Range(r.low, 0) else Range(id, r.high)
  }

  class Tracker {
    var ranges: seq<Range>
    var current: int
    ghost var ids: set<nat>

    /** Outside the list: the position before the first item or after the last. */
    predicate IsSentinel(item: int)
      reads this
    {
      item < 0 || item >= |ranges|
    }

    ghost predicate Valid()
      reads this
    {
      && Compact(ranges) && Denotes(ranges, ids)
      && (if ranges == [] then current == 0 else !IsSentinel(current))
    }

    constructor ()
      ensures Valid() && ids == {} && ranges == []
    {
      ranges, current, ids := [], 0, {};
    }

    /** The state of a walk: what lies on the side it came from keeps clear of
        id, by more than `margin`. */
    ghost predicate Walk(item: int, direction: int, id: nat, margin: nat)
      reads this
    {
      && -1 <= item <= |ranges| && direction in {-1, 0, 1}
      && (direction == 0 ==> item == current)
      && (direction == 1 ==> 0 < item && forall i :: 0 <= i < item && i < |ranges| ==> ranges[i].high + margin < id)
      && (direction == -1 ==>
            item < |ranges| - 1 && forall i :: item < i < |ranges| && 0 <= i ==> id + margin < ranges[i].low)
    }

    method CheckDuplicate(id: nat) returns (duplicate: bool)
      requires Valid()
      modifies this`current
      ensures Valid()
      ensures duplicate <==> id in ids
      ensures ranges == old(ranges) && ids == old(ids)
    {
      var direction := 0;
      var item := current;
      while true
        invariant Valid() && Walk(item, direction, id, 0)
        decreases if direction == 0 then 1 else 0, if direction == 1 then |ranges| - item else item + 1
      {
        if IsSentinel(item) {
          return false;
        } else if ranges[item].high >= id && ranges[item].low <= id {
          current := item;
          assert Covers(ranges, id);
          return true;
        } else if id > ranges[item].high && direction != -1 {
          direction := 1;
          item := item + 1;
        } else if id < ranges[item].low && direction != 1 {
          direction := -1;
          item := item - 1;
        } else {
          return false;
        }
      }
    }

    /** The list after an insertion, with the cursor on the item touched. */
    method Update(id: nat, next: seq<Range>, item: int)
      requires Valid() && Adds(ranges, id, next) && 0 <= item < |next|
      modifies this
      ensures Valid() && ids == old(ids) + {id} && ranges == next
    {
      ranges, current, ids := next, item, ids + {id};
    }

    /** id is already in item k: only the cursor moves. */
    method Remember(id: nat, k: int)
      requires Valid() && 0 <= k < |ranges| && ranges[k].low <= id <= ranges[k].high
      modifies this
      ensures Valid() && ids == old(ids) + {id} && ranges == old(ranges)
    {
      assert Covers(ranges, id);
      Update(id, ranges, k);
    }

    /** A new one-id item at position k of the list. */
    method NewItem(id: nat, k: int)
      requires Valid() && id <= UINT32_MAX && 0 <= k <= |ranges|
      requires k > 0 ==> ranges[k - 1].high + 1 < id
      requires k < |ranges| ==> id + 1 < ranges[k].low
      modifies this
      ensures Valid() && ids == old(ids) + {id}
    {
      InsertAlone(ranges, k, id);
      Update(id, ranges[..k] + [Range(id, id)] + ranges[k..], k);
    }

    /** Item k gets new ends. */
    method SetItem(id: nat, k: int, r: Range)
      requires 0 <= k < |ranges|
      modifies this
      ensures ranges == old(ranges)[k := r] && current == k && ids == old(ids) + {id}
    {
      ranges, current, ids := ranges[k := r], k, ids + {id};
    }

    /** Items k and k+1 are consolidated into one. */
    method Consolidate(id: nat, k: int)
      requires Valid() && 0 <= k < |ranges| - 1
      requires ranges[k].high + 1 == id && id + 1 == ranges[k + 1].low
      modifies this
      ensures Valid() && ids == old(ids) + {id}
    {
      Join(ranges, k, id);
      Update(id, ranges[..k] + [Range(ranges[k].low, ranges[k + 1].high)] + ranges[k + 2..], k);
    }

    /** id follows item directly: join with the next item or grow.  Behind the
        last 32-bit id that "follows" is 0. */
    method ExtendUp(id: nat, item: int)
      requires Valid() && 0 <= item < |ranges| && Wrap(ranges[item].high + 1) == id
      modifies this
      ensures id > 0 ==> Valid() && ids == old(ids) + {id}
      ensures id == 0 ==> current == item && ranges == old(ranges)[item := Range(old(ranges)[item].low, 0)]
    {
      var nextItem := item + 1;
      if !IsSentinel(nextItem) && ranges[nextItem].low == Wrap(id + 1) {
        Consolidate(id, item);
      } else {
        var r := Range(ranges[item].low, id);
        if id > 0 { Stretch(ranges, item, r, id); }
        SetItem(id, item, r);
      }
    }

    /** id precedes item directly: join with the previous item or grow.  Before
        0 that is the last 32-bit id. */
    method ExtendDown(id: nat, item: int)
      requires Valid() && 0 <= item < |ranges| && Wrap(ranges[item].low - 1) == id
      modifies this
      ensures id < UINT32_MAX ==> Valid() && ids == old(ids) + {id}
      ensures id == UINT32_MAX ==> current == item && ranges == old(ranges)[item := Range(id, old(ranges)[item].high)]
    {
      var prevItem := item - 1;
      if !IsSentinel(prevItem) && ranges[prevItem].high == Wrap(id - 1) {
        Consolidate(id, prevItem);
      } else {
        var r := Range(id, ranges[item].high);
        if id < UINT32_MAX { Stretch(ranges, item, r, id); }
        SetItem(id, item, r);
      }
    }

    /** The cursor is on the last 32-bit id and id is 0, or the other way round:
        the tests for a neighbour wrap around and take the two for neighbours. */
    predicate WrapsAround(id: nat)
      reads this
    {
      && 0 <= current < |ranges|
      && var cursor := ranges[current];
         || (id == 0 && cursor.high == UINT32_MAX && cursor.low > 0)
         || (id == UINT32_MAX && cursor.low == 0 && cursor.high < UINT32_MAX - 1)
    }

    /** A range that has been turned inside out. */
    lemma TurnedInsideOut(k: int)
      requires 0 <= k < |ranges| && ranges[k].low > ranges[k].high
      ensures !Valid()
    {}

    /** Where the neighbour tests wrap around is at the cursor. */
    lemma WrapsAtCursor(item: int, direction: int, id: nat)
      requires Valid() && Walk(item, direction, id, 1) && !IsSentinel(item) && id <= UINT32_MAX
      requires !(ranges[item].low <= id <= ranges[item].high)
      requires direction != 0 ==> !WrapsAround(id)
      ensures Wrap(ranges[item].high + 1) == id ==>
                (id == 0 <==> WrapsAround(id)) && (id == 0 ==> item == current && ranges[item].low > 0)
      ensures Wrap(ranges[item].low - 1) == id && Wrap(ranges[item].high + 1) != id ==>
                (id == UINT32_MAX <==> WrapsAround(id)) &&
                (id == UINT32_MAX ==> item == current && ranges[item].high < UINT32_MAX)
      ensures Wrap(ranges[item].high + 1) != id && Wrap(ranges[item].low - 1) != id ==> !WrapsAround(id)
    {
      if direction == 1 { assert ranges[item - 1].high + 1 < id && ranges[item - 1].high + 1 < ranges[item].low; }
      if direction == -1 { assert id + 1 < ranges[item + 1].low && ranges[item].high + 1 < ranges[item + 1].low; }
    }

    lemma WalkOn(item: int, direction: int, id: nat)
      requires Valid() && Walk(item, direction, id, 1) && !IsSentinel(item) && id <= UINT32_MAX
      requires Wrap(ranges[item].high + 1) != id && Wrap(ranges[item].low - 1) != id
      ensures id > ranges[item].high && direction != -1 ==> Walk(item + 1, 1, id, 1)
      ensures id < ranges[item].low && direction != 1 ==> Walk(item - 1, -1, id, 1)
      ensures id > ranges[item].high && direction == -1 ==>
                ranges[item].high + 1 < id && (item + 1 < |ranges| ==> id + 1 < ranges[item + 1].low)
      ensures id < ranges[item].low && direction == 1 ==>
                id + 1 < ranges[item].low && (item > 0 ==> ranges[item - 1].high + 1 < id)
    {
      if id > ranges[item].high { assert ranges[item].high + 1 < id; }
      if id < ranges[item].low { assert id + 1 < ranges[item].low; }
    }

    lemma WalkEnds(item: int, direction: int, id: nat)
      requires Valid() && Walk(item, direction, id, 1) && IsSentinel(item)
      ensures direction == -1 && ranges != [] ==> id + 1 < ranges[0].low
      ensures direction != -1 && ranges != [] ==> ranges[|ranges| - 1].high + 1 < id
      ensures direction == 0 ==> ranges == []
    {}

    /** Inserting id works unless it wraps around; then the range at the cursor
        is lost with all its ids. */
    method Insert(id: nat)
      requires Valid() && id <= UINT32_MAX
      modifies this
      ensures Valid() <==> !old(WrapsAround(id))
      ensures !old(WrapsAround(id)) ==> ids == old(ids) + {id}
      ensures old(WrapsAround(id)) ==>
                current == old(current) && ranges == old(ranges)[current := Inverted(id, old(ranges)[current])]
    {
      var item, direction := current, 0;
      hide Compact, Denotes;
      while true
        invariant Valid() && Walk(item, direction, id, 1) && ids == old(ids)
        invariant ranges == old(ranges) && current == old(current) && (direction != 0 ==> !old(WrapsAround(id)))
        decreases if direction == 0 then 1 else 0, if direction == 1 then |ranges| - item else item + 1
      {
        if IsSentinel(item) {
          WalkEnds(item, direction, id);
          NewItem(id, if direction == -1 then 0 else |ranges|);
          return;
        } else if ranges[item].high >= id && ranges[item].low <= id {
          Remember(id, item);
          return;
        }
        WrapsAtCursor(item, direction, id);
        if Wrap(ranges[item].high + 1) == id {
          ExtendUp(id, item);
          if id == 0 { TurnedInsideOut(item); }
          return;
        } else if Wrap(ranges[item].low - 1) == id {
          ExtendDown(id, item);
          if id == UINT32_MAX { TurnedInsideOut(item); }
          return;
        }
        WalkOn(item, direction, id);
        if id > ranges[item].high {
          if direction == -1 {
            NewItem(id, item + 1);
            return;
          } else {
            direction, item := 1, item + 1;
          }
        } else if id < ranges[item].low {
          if direction == 1 {
            NewItem(id, item);
            return;
          } else {
            direction, item := -1, item - 1;
          }
        } else {
          return;
        }
      }
    }

    /** While 0 and the last 32-bit id are not both in play nothing wraps around. */
    lemma NoWrap(id: nat)
      requires Valid() && !(0 in ids + {id} && UINT32_MAX in ids + {id})
      ensures !WrapsAround(id)
    {
      if 0 <= current < |ranges| {
        assert Covers(ranges, ranges[current].low) && Covers(ranges, ranges[current].high);
      }
    }

    /** Copying into a fresh tracker gives the same list, set and cursor. */
    method Copy(src: Tracker)
      requires Valid() && ranges == [] && src.Valid() && src != this
      modifies this
      ensures Valid() && ranges == src.ranges && ids == src.ids && current == src.current
    {
      var item := 0;
      while item < |src.ranges|
        invariant 0 <= item <= |src.ranges| && ranges == src.ranges[..item]
        invariant src.Valid() && src.ranges == old(src.ranges) && src.current == old(src.current)
        invariant current == if 0 <= src.current < item then src.current else 0
      {
        ranges := ranges + [Range(src.ranges[item].low, src.ranges[item].high)];
        if src.current == item { current := |ranges| - 1; }
        item := item + 1;
      }
      assert src.ranges[..|src.ranges|] == src.ranges;
      ids := src.ids;
    }
  }

  // ----- whole histories -----

  datatype Op = Insert(id: nat) | Check(id: nat)

  function Inserted(ops: seq<Op>): set<nat> {
    set op | op in ops && op.Insert? :: op.id
  }

  lemma InsertedNext(ops: seq<Op>, k: nat)
    requires k < |ops|
    ensures Inserted(ops[..k + 1]) == Inserted(ops[..k]) + (if ops[k].Insert? then {ops[k].id} else {})
    ensures Inserted(ops[..k + 1]) <= Inserted(ops)
  {
    assert ops[..k + 1] == ops[..k] + [ops[k]];
    assert forall op :: op in ops[..k + 1] ==> op in ops;
  }

  /** After any history, up to the first insertion that wraps around, the
      tracker holds exactly the inserted ids, and every check was answered from
      the inserts before it; without both 0 and the last 32-bit id there is no
      such insertion. */
  method Replay(ops: seq<Op>) returns (t: Tracker, done: nat, answers: seq<bool>)
    requires forall id :: id in Inserted(ops) ==> id <= UINT32_MAX
    ensures |answers| == done <= |ops| && fresh(t) && t.Valid() && t.ids == Inserted(ops[..done])
    ensures done < |ops| ==> ops[done].Insert? && t.WrapsAround(ops[done].id)
    ensures !(0 in Inserted(ops) && UINT32_MAX in Inserted(ops)) ==> done == |ops|
    ensures forall k :: 0 <= k < done && ops[k].Check? ==> (answers[k] <==> ops[k].id in Inserted(ops[..k]))
  {
    t := new Tracker();
    answers := [];
    for k := 0 to |ops|
      invariant fresh(t) && t.Valid() && t.ids == Inserted(ops[..k]) && |answers| == k
      invariant forall j :: 0 <= j < k && ops[j].Check? ==> (answers[j] <==> ops[j].id in Inserted(ops[..j]))
    {
      InsertedNext(ops, k);
      match ops[k]
      case Insert(id) =>
        if !(0 in Inserted(ops) && UINT32_MAX in Inserted(ops)) { t.NoWrap(id); }
        if t.WrapsAround(id) { return t, k, answers; }
        t.Insert(id);
        answers := answers + [true];
      case Check(id) =>
        var duplicate := t.CheckDuplicate(id);
        answers := answers + [duplicate];
    }
    assert ops[..|ops|] == ops;
    done := |ops|;
  }

  /** The shortest history that goes wrong: neither id is found afterwards. */
  method LastThenFirst() returns (t: Tracker)
    ensures fresh(t) && t.ranges == [Range(UINT32_MAX, 0)] && !Covers(t.ranges, UINT32_MAX) && !Covers(t.ranges, 0)
  {
    t := new Tracker();
    t.Insert(UINT32_MAX);
    forall x: int
      ensures Covers(t.ranges, x) <==> Covers([Range(UINT32_MAX, UINT32_MAX)], x)
    {
      CoversOne(Range(UINT32_MAX, UINT32_MAX), x);
      assert x >= 0 ==> (x in t.ids <==> x == UINT32_MAX);
    }
    CompactIsCanonical(t.ranges, [Range(UINT32_MAX, UINT32_MAX)]);
    t.Insert(0);
  }

  /** The same the other way round. */
  method FirstThenLast() returns (t: Tracker)
    ensures fresh(t) && t.ranges == [Range(UINT32_MAX, 0)] && !Covers(t.ranges, UINT32_MAX) && !Covers(t.ranges, 0)
  {
    t := new Tracker();
    t.Insert(0);
    forall x: int
      ensures Covers(t.ranges, x) <==> Covers([Range(0, 0)], x)
    {
      CoversOne(Range(0, 0), x);
      assert x >= 0 ==> (x in t.ids <==> x == 0);
    }
    CompactIsCanonical(t.ranges, [Range(0, 0)]);
    t.Insert(UINT32_MAX);
  }

  /** Histories that insert the same set leave the same list behind. */
  lemma HistoryForgotten(a: Tracker, b: Tracker)
    requires a.Valid() && b.Valid() && a.ids == b.ids
    ensures a.ranges == b.ranges
  {
    SetDeterminesList(a.ranges, b.ranges, a.ids);
  }
}
