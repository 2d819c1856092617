/** Several CID allocations in flight at one process: whatever the other
    processes answer and however the allocations interleave, no slot is ever
    held by two of them and none is lost. */
module CidOwnership {
  import opened CidRounds

  datatype Phase = Idle | AwaitMax | AwaitMin | Over

  /** `id` orders the allocations at the gate that admits them to a round. */
  datatype Alloc = Alloc(p: Proc, id: int, phase: Phase)

  /** The table is shared; the `table` fields of the allocations are not used. */
  datatype State = State(table: Table, allocs: seq<Alloc>, lowestId: int)

  const INT64_MAX := 0x7FFF_FFFF_FFFF_FFFF

  datatype Event = GetNext(i: nat) | CheckWinner(i: nat, winner: nat) | CheckFlag(i: nat, agreed: bool)

  function Seen(s: State, i: nat): Proc
    requires i < |s.allocs|
  {
    s.allocs[i].p.(table := s.table)
  }

  /** The answers a collective can give: its minimum includes the caller's own flag. */
  predicate Enabled(s: State, e: Event, max: nat) {
    && e.i < |s.allocs|
    && var a := s.allocs[e.i];
       match e
       case GetNext(_) => a.phase == Idle && s.lowestId >= a.id
       case CheckWinner(_, _) => a.phase == AwaitMax
       case CheckFlag(_, agreed) => a.phase == AwaitMin && (agreed ==> a.p.flag)
  }

  /** The guard of the one step that can go wrong: the slot that a committing
      non-participant overwrites is empty.  Its search ends at `max` if it finds
      nothing below, and it does not look whether that slot is taken. */
  predicate Fits(s: State, e: Event, max: nat)
    requires Enabled(s, e, max)
  {
    e.CheckFlag? && e.agreed && !s.allocs[e.i].p.participates ==>
        LowestFree(s.table, s.allocs[e.i].p.start, max) !in s.table
  }

  function Install(s: State, i: nat, p: Proc, phase: Phase, lowestId: int): State
    requires i < |s.allocs|
  {
    State(p.table, s.allocs[i := s.allocs[i].(p := p, phase := phase)], lowestId)
  }

  function Next(s: State, e: Event, max: nat): State
    requires Enabled(s, e, max)
  {
    var a := s.allocs[e.i];
    match e
    case GetNext(i) =>
      var p := Reserve(Seen(s, i), max);
      if p.status == Exhausted then Install(s, i, p, Over, INT64_MAX) else Install(s, i, p, AwaitMax, a.id)
    case CheckWinner(i, winner) =>
      Install(s, i, Check(Seen(s, i), winner), AwaitMin, s.lowestId)
    case CheckFlag(i, agreed) =>
      var p := Decide(Seen(s, i), agreed, max);
      if agreed then Install(s, i, p, Over, INT64_MAX) else Install(s, i, p, Idle, s.lowestId)
  }

  // ----- ownership -----

  /** Allocation a holds slot s. */
  predicate Holds(a: Alloc, s: nat) {
    match a.phase
    case Idle => false
    case AwaitMax => a.p.participates && s == a.p.nextLocal
    case AwaitMin => a.p.participates && a.p.flag && s == a.p.nextCid
    case Over => a.p.status == Committed(s)
  }

  /** What a slot held by a contains. */
  function Content(a: Alloc): nat {
    if a.phase == Over then a.p.newcomm else a.p.comm
  }

  /** Phase and status fit together. */
  predicate Coherent(a: Alloc) {
    a.phase != Over ==> a.p.status == Running
  }

  ghost predicate Exclusive(s: State) {
    forall i, j, x :: 0 <= i < |s.allocs| && 0 <= j < |s.allocs| && Holds(s.allocs[i], x) && Holds(s.allocs[j], x) ==>
        i == j
  }

  ghost predicate HeldAreFilled(s: State, init: Table) {
    forall i, x :: 0 <= i < |s.allocs| && Holds(s.allocs[i], x) ==>
      x in s.table && s.table[x] == Content(s.allocs[i]) && x !in init
  }

  /** Nothing disappears, and nothing is left behind without an owner. */
  ghost predicate NothingLost(s: State, init: Table) {
    && (forall x :: x in init ==> x in s.table && s.table[x] == init[x])
    && (forall x :: x in s.table ==> x in init || SomeoneHolds(s, x))
  }

  ghost predicate SomeoneHolds(s: State, x: nat) {
    exists i :: 0 <= i < |s.allocs| && Holds(s.allocs[i], x)
  }

  ghost predicate Inv(s: State, init: Table) {
    && (forall i :: 0 <= i < |s.allocs| ==> Coherent(s.allocs[i]))
    && Exclusive(s) && HeldAreFilled(s, init) && NothingLost(s, init)
  }

  /** What one allocation may do to the table: release what it held, take what
      was free, and touch nothing else. */
  ghost predicate OwnChange(table: Table, a: Alloc, table': Table, a': Alloc) {
    && Coherent(a')
    && (forall x :: Holds(a', x) ==> x in table' && table'[x] == Content(a') && (Holds(a, x) || x !in table))
    && (forall x :: !Holds(a, x) && !Holds(a', x) ==>
        (x in table <==> x in table') && (x in table ==> table'[x] == table[x]))
    && (forall x :: Holds(a, x) && !Holds(a', x) ==> x !in table')
  }

  /** What a step of an allocation may rely on: its own slots are filled by it. */
  ghost predicate OwnsWhatItHolds(s: State, i: nat)
    requires i < |s.allocs|
  {
    Coherent(s.allocs[i]) && forall x :: Holds(s.allocs[i], x) ==> x in s.table && s.table[x] == Content(s.allocs[i])
  }

  lemma GetNextIsOwn(s: State, i: nat, max: nat)
    requires Enabled(s, GetNext(i), max) && OwnsWhatItHolds(s, i)
    ensures OwnChange(s.table, s.allocs[i], Next(s, GetNext(i), max).table, Next(s, GetNext(i), max).allocs[i])
  {}

  lemma CheckWinnerIsOwn(s: State, i: nat, winner: nat, max: nat)
    requires Enabled(s, CheckWinner(i, winner), max) && OwnsWhatItHolds(s, i)
    ensures OwnChange(s.table, s.allocs[i], Next(s, CheckWinner(i, winner), max).table,
                      Next(s, CheckWinner(i, winner), max).allocs[i])
  {
    if s.allocs[i].p.participates { assert Holds(s.allocs[i], s.allocs[i].p.nextLocal); }
  }

  lemma CheckFlagIsOwn(s: State, i: nat, agreed: bool, max: nat)
    requires Enabled(s, CheckFlag(i, agreed), max) && OwnsWhatItHolds(s, i) && Fits(s, CheckFlag(i, agreed), max)
    ensures OwnChange(s.table, s.allocs[i], Next(s, CheckFlag(i, agreed), max).table,
                      Next(s, CheckFlag(i, agreed), max).allocs[i])
  {
    var p := s.allocs[i].p;
    if p.participates && p.flag { assert Holds(s.allocs[i], p.nextCid); }
  }

  lemma StepIsOwnChange(s: State, init: Table, e: Event, max: nat)
    requires Inv(s, init) && Enabled(s, e, max) && Fits(s, e, max)
    ensures OwnChange(s.table, s.allocs[e.i], Next(s, e, max).table, Next(s, e, max).allocs[e.i])
    ensures Next(s, e, max).allocs == s.allocs[e.i := Next(s, e, max).allocs[e.i]]
  {
    assert OwnsWhatItHolds(s, e.i);
    hide Inv, OwnChange, OwnsWhatItHolds;
    match e
    case GetNext(i) => GetNextIsOwn(s, i, max);
    case CheckWinner(i, winner) => CheckWinnerIsOwn(s, i, winner, max);
    case CheckFlag(i, agreed) => CheckFlagIsOwn(s, i, agreed, max);
  }

  lemma OwnChangeKeepsInv(s: State, init: Table, i: nat, table: Table, a: Alloc, lowestId: int)
    requires Inv(s, init) && i < |s.allocs| && OwnChange(s.table, s.allocs[i], table, a)
    ensures Inv(State(table, s.allocs[i := a], lowestId), init)
  {
    var s' := State(table, s.allocs[i := a], lowestId);
    forall j, x | 0 <= j < |s.allocs| && Holds(s'.allocs[j], x)
      ensures x in table && table[x] == Content(s'.allocs[j]) && x !in init
    {
      if j != i {
        assert Holds(s.allocs[j], x);
        assert !Holds(s.allocs[i], x);
      }
    }
    forall x | x in init ensures x in table && table[x] == init[x] {
      assert !Holds(s.allocs[i], x);
      assert !Holds(a, x);
    }
    forall x | x in table ensures x in init || SomeoneHolds(s', x) {
      if Holds(a, x) {
        assert Holds(s'.allocs[i], x);
      } else if x !in init {
        assert x in s.table;
        var j :| 0 <= j < |s.allocs| && Holds(s.allocs[j], x);
        assert Holds(s'.allocs[j], x);
      }
    }
    forall j, k, x | 0 <= j < |s.allocs| && 0 <= k < |s.allocs| && Holds(s'.allocs[j], x) && Holds(s'.allocs[k], x)
      ensures j == k
    {
      if j != i { assert Holds(s.allocs[j], x); }
      if k != i { assert Holds(s.allocs[k], x); }
    }
  }

  // ----- whole runs -----

  predicate IsRun(s: State, events: seq<Event>, max: nat)
    decreases |events|
  {
    events == [] || (Enabled(s, events[0], max) && IsRun(Next(s, events[0], max), events[1..], max))
  }

  function After(s: State, events: seq<Event>, max: nat): State
    requires IsRun(s, events, max)
    decreases |events|
  {
    if events == [] then s else After(Next(s, events[0], max), events[1..], max)
  }

  predicate Fresh(s: State) {
    forall i :: 0 <= i < |s.allocs| ==> s.allocs[i].phase == Idle && s.allocs[i].p.status == Running
  }

  predicate HasCid(a: Alloc, cid: nat) {
    a.phase == Over && a.p.status == Committed(cid)
  }

  /** No two finished allocations have the same CID. */
  ghost predicate DistinctCids(s: State) {
    forall i, j, cid ::
      0 <= i < |s.allocs| && 0 <= j < |s.allocs| && HasCid(s.allocs[i], cid) && HasCid(s.allocs[j], cid) ==> i == j
  }

  /** What was in the table stays, a finished allocation's CID is new and holds
      its communicator, no two finished allocations have the same CID, and a
      taken slot is an old one or is held by exactly one allocation. */
  ghost predicate Owned(s: State, init: Table) {
    && Exclusive(s) && NothingLost(s, init)
    && (forall i, cid :: 0 <= i < |s.allocs| && HasCid(s.allocs[i], cid) ==>
          cid !in init && cid in s.table && s.table[cid] == s.allocs[i].p.newcomm)
    && DistinctCids(s)
  }

  lemma InvIsOwned(s: State, init: Table)
    requires Inv(s, init)
    ensures Owned(s, init)
  {
    assert forall i, cid :: 0 <= i < |s.allocs| && HasCid(s.allocs[i], cid) ==> Holds(s.allocs[i], cid);
  }

  /** A commit onto a taken slot robs its owner. */
  lemma MisfitRobs(s: State, init: Table, e: Event, max: nat)
    requires Inv(s, init) && Enabled(s, e, max) && !Fits(s, e, max)
    ensures !Owned(Next(s, e, max), init)
  {
    var x := LowestFree(s.table, s.allocs[e.i].p.start, max);
    var s' := Next(s, e, max);
    assert HasCid(s'.allocs[e.i], x) && Holds(s'.allocs[e.i], x);
    if x !in init {
      assert SomeoneHolds(s, x);
      var j :| 0 <= j < |s.allocs| && Holds(s.allocs[j], x);
      assert Holds(s'.allocs[j], x);
    }
  }

  lemma StepKeepsInv(s: State, init: Table, e: Event, max: nat)
    requires Inv(s, init) && Enabled(s, e, max) && Fits(s, e, max)
    ensures Inv(Next(s, e, max), init)
  {
    var s' := Next(s, e, max);
    StepIsOwnChange(s, init, e, max);
    OwnChangeKeepsInv(s, init, e.i, s'.table, s'.allocs[e.i], s'.lowestId);
  }

  /** One step keeps what every allocation owns if and only if it fits. */
  lemma OwnedIffFits(s: State, init: Table, e: Event, max: nat)
    requires Inv(s, init) && Enabled(s, e, max)
    ensures Owned(Next(s, e, max), init) <==> Fits(s, e, max)
    ensures Inv(Next(s, e, max), init) <==> Fits(s, e, max)
  {
    if Fits(s, e, max) {
      StepKeepsInv(s, init, e, max);
      InvIsOwned(Next(s, e, max), init);
    } else {
      MisfitRobs(s, init, e, max);
      if Inv(Next(s, e, max), init) { InvIsOwned(Next(s, e, max), init); }
    }
  }

  predicate AllFit(s: State, events: seq<Event>, max: nat)
    requires IsRun(s, events, max)
    decreases |events|
  {
    events == [] || (Fits(s, events[0], max) && AllFit(Next(s, events[0], max), events[1..], max))
  }

  ghost predicate OwnedThroughout(s: State, init: Table, events: seq<Event>, max: nat)
    requires IsRun(s, events, max)
    decreases |events|
  {
    Owned(s, init) && (events != [] ==> OwnedThroughout(Next(s, events[0], max), init, events[1..], max))
  }

  lemma {:induction false} OwnedWhileFits(s: State, init: Table, events: seq<Event>, max: nat)
    requires Inv(s, init) && IsRun(s, events, max)
    ensures OwnedThroughout(s, init, events, max) <==> AllFit(s, events, max)
    ensures AllFit(s, events, max) ==> Inv(After(s, events, max), init)
    decreases |events|
  {
    InvIsOwned(s, init);
    if events != [] {
      var s' := Next(s, events[0], max);
      OwnedIffFits(s, init, events[0], max);
      if Fits(s, events[0], max) {
        OwnedWhileFits(s', init, events[1..], max);
      } else {
        assert !OwnedThroughout(s', init, events[1..], max);
      }
    }
  }

  /** Over every run from fresh allocations: what every allocation owns is its
      own in every state of the run if and only if every commit of the run fits. */
  lemma Ownership(s: State, events: seq<Event>, max: nat)
    requires Fresh(s) && IsRun(s, events, max)
    ensures OwnedThroughout(s, s.table, events, max) <==> AllFit(s, events, max)
    ensures AllFit(s, events, max) ==> Owned(After(s, events, max), s.table)
  {
    OwnedWhileFits(s, s.table, events, max);
    if AllFit(s, events, max) { InvIsOwned(After(s, events, max), s.table); }
  }

  /** A run that does not fit: two allocations in which this process does not
      participate, and a table that is full below max == 1.  Both end with CID 1. */
  lemma TwoOnOneSlot() returns (s: State, events: seq<Event>)
    ensures Fresh(s) && IsRun(s, events, 1)
    ensures var s' := After(s, events, 1);
      |s'.allocs| == 2 && HasCid(s'.allocs[0], 1) && HasCid(s'.allocs[1], 1) && s'.table == map[0 := 7, 1 := 12]
    ensures !AllFit(s, events, 1)
  {
    var p := Proc(map[], false, 7, 11, 0, 0, 0, false, 0, Running);
    s := State(map[0 := 7], [Alloc(p, 1, Idle), Alloc(p.(newcomm := 12), 2, Idle)], INT64_MAX);
    events := [GetNext(0), CheckWinner(0, 0), CheckFlag(0, true), GetNext(1), CheckWinner(1, 0), CheckFlag(1, true)];
    var s1 := Next(s, events[0], 1);
    var s2 := Next(s1, events[1], 1);
    var s3 := Next(s2, events[2], 1);
    var s4 := Next(s3, events[3], 1);
    var s5 := Next(s4, events[4], 1);
    var s6 := Next(s5, events[5], 1);
    assert LowestFree(map[0 := 7], 0, 1) == 1;
    assert s3.table == map[0 := 7, 1 := 11];
  }

  // ----- what the gate is for -----

  /** No allocation ends during the run. */
  predicate NoneEnds(s: State, events: seq<Event>, max: nat)
    requires IsRun(s, events, max)
    decreases |events|
  {
    events == []
    || (var s' := Next(s, events[0], max);
        s'.allocs[events[0].i].phase != Over && NoneEnds(s', events[1..], max))
  }

  lemma {:induction false} StartsBelow(s: State, events: seq<Event>, max: nat, bound: int, j: nat)
    requires IsRun(s, events, max) && NoneEnds(s, events, max) && s.lowestId <= bound
    requires j < |events| && events[j].GetNext? && events[j].i < |s.allocs|
    ensures s.allocs[events[j].i].id <= bound
    decreases |events|
  {
    if j > 0 {
      var s' := Next(s, events[0], max);
      assert s'.allocs[events[j].i].id == s.allocs[events[j].i].id;
      StartsBelow(s', events[1..], max, bound, j - 1);
    }
  }

  lemma {:induction false} SameAllocations(s: State, events: seq<Event>, max: nat, j: nat)
    requires IsRun(s, events, max) && j < |events|
    ensures events[j].i < |s.allocs|
    decreases |events|
  {
    if j > 0 { SameAllocations(Next(s, events[0], max), events[1..], max, j - 1); }
  }

  /** Until an allocation ends, rounds are started in descending order of the
      ids: none is started before an allocation with a smaller id that has
      started is through. */
  lemma {:induction false} StartsDescend(s: State, events: seq<Event>, max: nat, i: nat, j: nat)
    requires IsRun(s, events, max) && NoneEnds(s, events, max)
    requires i < j < |events| && events[i].GetNext? && events[j].GetNext?
    ensures events[i].i < |s.allocs| && events[j].i < |s.allocs|
    ensures s.allocs[events[j].i].id <= s.allocs[events[i].i].id
    decreases |events|
  {
    var s' := Next(s, events[0], max);
    SameAllocations(s, events, max, i);
    SameAllocations(s, events, max, j);
    assert forall k :: 0 <= k < |s.allocs| ==> s'.allocs[k].id == s.allocs[k].id;
    if i == 0 {
      StartsBelow(s', events[1..], max, s.allocs[events[0].i].id, j - 1);
    } else {
      StartsDescend(s', events[1..], max, i - 1, j - 1);
    }
  }

  /** When one ends, every waiting allocation may start. */
  lemma EndOpensGate(s: State, e: Event, max: nat, i: nat)
    requires Enabled(s, e, max) && Next(s, e, max).allocs[e.i].phase == Over
    requires i < |s.allocs| && i != e.i && s.allocs[i].phase == Idle && s.allocs[i].id <= INT64_MAX
    ensures Enabled(Next(s, e, max), GetNext(i), max)
  {}
}
