/** Runs of several CID allocations at several processes end: the winners of an
    allocation's rounds grow, whatever the other allocations do to the tables. */
module CidTermination {
  import opened CidRounds
  import opened CidOwnership
  import opened CidSystem
  import opened Totals
  import Network = CidNetwork

  // ----- what a process offers in successive rounds -----

  /** Round j / 3 of allocation a: its winner. */
  function WinnerAt(posted: Posted, group: seq<nat>, a: nat, j: nat): nat
    requires Complete(posted, group, a, j)
  {
    MaxOf(Row(posted, group, a, j))
  }

  /** A process whose offer won starts the next search behind it. */
  ghost predicate OffersGrow(posted: Posted, group: seq<nat>, a: nat, q: nat, k: nat, j: nat) {
    j % 3 == 0 && j + 3 < k ==>
      && Complete(posted, group, a, j) && (a, q, j) in posted && (a, q, j + 3) in posted
      && (posted[(a, q, j)] == WinnerAt(posted, group, a, j) ==> posted[(a, q, j + 3)] > WinnerAt(posted, group, a, j))
  }

  ghost predicate OfferBounded(posted: Posted, a: nat, q: nat, al: Alloc, k: nat, max: nat, j: nat) {
    j % 3 == 0 && j < k ==>
      (a, q, j) in posted && posted[(a, q, j)] <= max && (al.p.status != Exhausted ==> posted[(a, q, j)] < max)
  }

  /** The present state of a participant and its last offer. */
  ghost predicate OfferNow(posted: Posted, group: seq<nat>, a: nat, q: nat, al: Alloc, k: nat) {
    match al.phase
    case Idle =>
      k >= 3 ==>
        && Complete(posted, group, a, k - 3) && (a, q, k - 3) in posted
        && (posted[(a, q, k - 3)] == WinnerAt(posted, group, a, k - 3) ==>
            al.p.start > WinnerAt(posted, group, a, k - 3))
    case AwaitMax => k >= 1 && (a, q, k - 1) in posted && posted[(a, q, k - 1)] == al.p.nextLocal
    case AwaitMin => k >= 2 && (a, q, k - 2) in posted && (posted[(a, q, k - 2)] == al.p.nextCid ==> al.p.flag)
    case Over => true
  }

  /** A non-participant offers 0 and always agrees. */
  ghost predicate Abstains(posted: Posted, a: nat, q: nat, al: Alloc, k: nat, j: nat) {
    && (j % 3 == 0 && j < k ==> (a, q, j) in posted && posted[(a, q, j)] == 0)
    && (j % 3 == 1 && j < k ==> (a, q, j) in posted && posted[(a, q, j)] == 1)
  }

  ghost predicate OfferOk(posted: Posted, group: seq<nat>, a: nat, q: nat, al: Alloc, k: nat, max: nat) {
    if al.p.participates then
      && OfferNow(posted, group, a, q, al, k)
      && (forall j: nat :: OffersGrow(posted, group, a, q, k, j))
      && (forall j: nat :: OfferBounded(posted, a, q, al, k, max, j))
    else
      && (al.phase == AwaitMin ==> al.p.flag)
      && al.p.status != Exhausted
      && forall j: nat :: Abstains(posted, a, q, al, k, j)
  }

  lemma OthersOfferOk(posted: Posted, posted': Posted, group: seq<nat>, a: nat, q: nat, al: Alloc, k: nat, max: nat)
    requires OfferOk(posted, group, a, q, al, k, max)
    requires forall key :: key in posted ==> key in posted' && posted'[key] == posted[key]
    ensures OfferOk(posted', group, a, q, al, k, max)
  {
    if al.p.participates {
      if al.phase == Idle && k >= 3 { RowStable(posted, posted', group, a, k - 3); }
      forall j: nat
        ensures OffersGrow(posted', group, a, q, k, j)
      {
        assert OffersGrow(posted, group, a, q, k, j);
        if j % 3 == 0 && j + 3 < k { RowStable(posted, posted', group, a, j); }
      }
      forall j: nat
        ensures OfferBounded(posted', a, q, al, k, max, j)
      {
        assert OfferBounded(posted, a, q, al, k, max, j);
      }
    } else {
      forall j: nat
        ensures Abstains(posted', a, q, al, k, j)
      {
        assert Abstains(posted, a, q, al, k, j);
      }
    }
  }

  // ----- the process that steps -----

  lemma StepperOfferNow(posted: Posted, group: seq<nat>, a: nat, p: nat, s: State, k: nat, e: Event, max: nat)
    requires a < |s.allocs| && p in group && Enabled(s, e, max) && e.i == a
    requires MemberOk(posted, group, a, p, s.allocs[a], k) && OfferOk(posted, group, a, p, s.allocs[a], k, max)
    requires (k % 3 != 0 ==> Complete(posted, group, a, k - 1)) && e == EventAt(posted, group, a, k)
    requires s.allocs[a].p.participates
    ensures var al := Next(s, e, max).allocs[a];
      OfferNow(PostedBy(posted, a, p, k, al.p), group, a, p, al, k + 1)
  {
    var al := Next(s, e, max).allocs[a];
    var posted' := PostedBy(posted, a, p, k, al.p);
    PostedMore(posted, a, p, k, al.p);
    if k % 3 == 2 { RowStable(posted, posted', group, a, k - 2); }
  }

  lemma StepperOffersGrow(posted: Posted, group: seq<nat>, a: nat, p: nat, s: State, k: nat, e: Event, max: nat, j: nat)
    requires a < |s.allocs| && p in group && Enabled(s, e, max) && e.i == a
    requires MemberOk(posted, group, a, p, s.allocs[a], k) && OfferOk(posted, group, a, p, s.allocs[a], k, max)
    requires (k % 3 != 0 ==> Complete(posted, group, a, k - 1)) && e == EventAt(posted, group, a, k)
    requires s.allocs[a].p.participates
    ensures var al := Next(s, e, max).allocs[a];
      OffersGrow(PostedBy(posted, a, p, k, al.p), group, a, p, k + 1, j)
  {
    var al := Next(s, e, max).allocs[a];
    var posted' := PostedBy(posted, a, p, k, al.p);
    PostedMore(posted, a, p, k, al.p);
    assert OffersGrow(posted, group, a, p, k, j) && OfferBounded(posted, a, p, s.allocs[a], k, max, j);
    if j % 3 == 0 && j + 3 < k + 1 {
      RowStable(posted, posted', group, a, j);
      if j + 3 == k { assert k % 3 == 0 && OfferNow(posted, group, a, p, s.allocs[a], k); }
    }
  }

  lemma StepperOfferBounded(posted: Posted, group: seq<nat>, a: nat, p: nat, s: State, k: nat, e: Event, max: nat,
                            j: nat)
    requires a < |s.allocs| && p in group && Enabled(s, e, max) && e.i == a
    requires MemberOk(posted, group, a, p, s.allocs[a], k) && OfferOk(posted, group, a, p, s.allocs[a], k, max)
    requires (k % 3 != 0 ==> Complete(posted, group, a, k - 1)) && e == EventAt(posted, group, a, k)
    requires s.allocs[a].p.participates
    ensures var al := Next(s, e, max).allocs[a];
      OfferBounded(PostedBy(posted, a, p, k, al.p), a, p, al, k + 1, max, j)
  {
    assert OfferBounded(posted, a, p, s.allocs[a], k, max, j);
    PostedMore(posted, a, p, k, Next(s, e, max).allocs[a].p);
  }

  lemma StepperAbstains(posted: Posted, group: seq<nat>, a: nat, p: nat, s: State, k: nat, e: Event, max: nat, j: nat)
    requires a < |s.allocs| && p in group && Enabled(s, e, max) && e.i == a
    requires MemberOk(posted, group, a, p, s.allocs[a], k) && OfferOk(posted, group, a, p, s.allocs[a], k, max)
    requires (k % 3 != 0 ==> Complete(posted, group, a, k - 1)) && e == EventAt(posted, group, a, k)
    requires !s.allocs[a].p.participates
    ensures var al := Next(s, e, max).allocs[a];
      Abstains(PostedBy(posted, a, p, k, al.p), a, p, al, k + 1, j)
  {
    assert Abstains(posted, a, p, s.allocs[a], k, j);
    PostedMore(posted, a, p, k, Next(s, e, max).allocs[a].p);
  }

  lemma StepperOfferOk(posted: Posted, group: seq<nat>, a: nat, p: nat, s: State, k: nat, e: Event, max: nat)
    requires a < |s.allocs| && p in group && Enabled(s, e, max) && e.i == a
    requires MemberOk(posted, group, a, p, s.allocs[a], k) && OfferOk(posted, group, a, p, s.allocs[a], k, max)
    requires (k % 3 != 0 ==> Complete(posted, group, a, k - 1)) && e == EventAt(posted, group, a, k)
    ensures var al := Next(s, e, max).allocs[a];
      OfferOk(PostedBy(posted, a, p, k, al.p), group, a, p, al, k + 1, max)
  {
    var al := Next(s, e, max).allocs[a];
    var posted', next := PostedBy(posted, a, p, k, al.p), k + 1;
    if s.allocs[a].p.participates {
      StepperOfferNow(posted, group, a, p, s, k, e, max);
      forall j: nat
        ensures OffersGrow(posted', group, a, p, next, j) && OfferBounded(posted', a, p, al, next, max, j)
      {
        StepperOffersGrow(posted, group, a, p, s, k, e, max, j);
        StepperOfferBounded(posted, group, a, p, s, k, e, max, j);
      }
    } else {
      forall j: nat
        ensures Abstains(posted', a, p, al, next, j)
      {
        StepperAbstains(posted, group, a, p, s, k, e, max, j);
      }
    }
  }

  // ----- the whole system -----

  ghost predicate OffersAt(sys: System, plan: Plan, p: nat, a: nat, max: nat)
    requires Fitting(sys, plan) && TakesPart(sys, plan, p, a)
  {
    OfferOk(sys.posted, plan.groups[a], a, p, sys.procs[p].allocs[a], sys.done[p][a], max)
  }

  ghost predicate AllOffersOk(sys: System, plan: Plan, max: nat)
    requires Fitting(sys, plan)
  {
    forall p: nat, a: nat :: TakesPart(sys, plan, p, a) ==> OffersAt(sys, plan, p, a, max)
  }

  lemma StepKeepsOffers(sys: System, plan: Plan, p: nat, a: nat, max: nat)
    requires SysInv(sys, plan) && AllOffersOk(sys, plan, max) && CanStep(sys, plan, p, a, max)
    ensures Fitting(StepOf(sys, plan, p, a, max), plan) && AllOffersOk(StepOf(sys, plan, p, a, max), plan, max)
  {
    StepKeepsSys(sys, plan, p, a, max);
    var sys' := StepOf(sys, plan, p, a, max);
    var k, s, e := sys.done[p][a], sys.procs[p], EventOf(sys, plan, p, a);
    assert MemberAt(sys, plan, p, a) && OffersAt(sys, plan, p, a, max);
    NextKeepsOthers(s, e, max);
    PostedMore(sys.posted, a, p, k, Next(s, e, max).allocs[a].p);
    forall q: nat, b: nat | TakesPart(sys', plan, q, b)
      ensures OffersAt(sys', plan, q, b, max)
    {
      assert OffersAt(sys, plan, q, b, max);
      if q == p && b == a {
        StepperOfferOk(sys.posted, plan.groups[a], a, p, s, k, e, max);
      } else {
        assert sys'.procs[q].allocs[b] == sys.procs[q].allocs[b] && sys'.done[q][b] == sys.done[q][b];
        OthersOfferOk(sys.posted, sys'.posted, plan.groups[b], b, q, sys.procs[q].allocs[b], sys.done[q][b], max);
      }
    }
  }

  lemma StartingOffersOk(sys: System, plan: Plan, max: nat)
    requires Starting(sys, plan)
    ensures AllOffersOk(sys, plan, max)
  {
    forall p: nat, a: nat | TakesPart(sys, plan, p, a)
      ensures OffersAt(sys, plan, p, a, max)
    {
      assert Fresh(sys.procs[p]);
    }
  }

  // ----- the winners of an allocation grow -----

  predicate HasParticipant(sys: System, plan: Plan, a: nat)
    requires Fitting(sys, plan) && a < |plan.groups|
  {
    exists q :: q in plan.groups[a] && TakesPart(sys, plan, q, a) && sys.procs[q].allocs[a].p.participates
  }

  /** A participant whose offer won round j / 3. */
  lemma Supplier(sys: System, plan: Plan, a: nat, j: nat, max: nat) returns (q: nat)
    requires SysInv(sys, plan) && AllOffersOk(sys, plan, max) && a < |plan.groups| && HasParticipant(sys, plan, a)
    requires j % 3 == 0 && Complete(sys.posted, plan.groups[a], a, j)
    ensures TakesPart(sys, plan, q, a) && sys.procs[q].allocs[a].p.participates
    ensures (a, q, j) in sys.posted && sys.posted[(a, q, j)] == WinnerAt(sys.posted, plan.groups[a], a, j)
  {
    var group, row := plan.groups[a], Row(sys.posted, plan.groups[a], a, j);
    MaxOfBounds(row);
    q :| q in group && TakesPart(sys, plan, q, a) && sys.procs[q].allocs[a].p.participates;
    var i :| 0 <= i < |group| && group[i] == q;
    assert row[i] in row && row[i] == sys.posted[(a, q, j)];
    if MaxOf(row) > 0 {
      var m :| 0 <= m < |row| && row[m] == MaxOf(row);
      q := group[m];
      assert q in group && OffersAt(sys, plan, q, a, max) && MemberAt(sys, plan, q, a);
      assert PostedUpTo(sys.posted, a, q, sys.done[q][a], j);
      assert !sys.procs[q].allocs[a].p.participates ==>
          Abstains(sys.posted, a, q, sys.procs[q].allocs[a], sys.done[q][a], j);
    }
  }

  lemma WinnersGrow(sys: System, plan: Plan, a: nat, j: nat, max: nat)
    requires SysInv(sys, plan) && AllOffersOk(sys, plan, max) && a < |plan.groups| && HasParticipant(sys, plan, a)
    requires j % 3 == 0 && Complete(sys.posted, plan.groups[a], a, j) && Complete(sys.posted, plan.groups[a], a, j + 3)
    ensures WinnerAt(sys.posted, plan.groups[a], a, j) < WinnerAt(sys.posted, plan.groups[a], a, j + 3)
  {
    var group := plan.groups[a];
    var q := Supplier(sys, plan, a, j, max);
    assert OffersAt(sys, plan, q, a, max) && MemberAt(sys, plan, q, a);
    assert PostedUpTo(sys.posted, a, q, sys.done[q][a], j + 3);
    assert OffersGrow(sys.posted, group, a, q, sys.done[q][a], j);
    var row := Row(sys.posted, group, a, j + 3);
    MaxOfBounds(row);
    var i :| 0 <= i < |group| && group[i] == q;
    assert row[i] in row;
  }

  lemma RoundsComplete(sys: System, plan: Plan, p: nat, a: nat, r: nat)
    requires SysInv(sys, plan) && TakesPart(sys, plan, p, a) && sys.done[p][a] >= 3 * r + 3
    ensures Complete(sys.posted, plan.groups[a], a, 3 * r) && Complete(sys.posted, plan.groups[a], a, 3 * r + 1)
  {
    var group, al, k := plan.groups[a], sys.procs[p].allocs[a], sys.done[p][a];
    var j := 3 * r + 1;
    assert MemberAt(sys, plan, p, a);
    assert !(HasCommitted(al) && j + 2 == k) ==> j % 3 == 1 && Rejected(sys.posted, group, a, j);
    forall q | q in group
      ensures (a, q, j - 1) in sys.posted
    {
      assert TakesPart(sys, plan, q, a) && MemberAt(sys, plan, q, a);
      assert PostedUpTo(sys.posted, a, q, sys.done[q][a], j);
      assert PostedUpTo(sys.posted, a, q, sys.done[q][a], j - 1);
    }
  }

  lemma {:induction false} WinnersClimb(sys: System, plan: Plan, p: nat, a: nat, r: nat, max: nat)
    requires SysInv(sys, plan) && AllOffersOk(sys, plan, max) && TakesPart(sys, plan, p, a)
    requires HasParticipant(sys, plan, a)
    requires sys.done[p][a] >= 3 * r + 3
    ensures Complete(sys.posted, plan.groups[a], a, 3 * r)
    ensures r <= WinnerAt(sys.posted, plan.groups[a], a, 3 * r) <= max
  {
    RoundsComplete(sys, plan, p, a, r);
    var j := 3 * r;
    if r > 0 {
      WinnersClimb(sys, plan, p, a, r - 1, max);
      assert 3 * (r - 1) == j - 3;
      WinnersGrow(sys, plan, a, j - 3, max);
    }
    var q := Supplier(sys, plan, a, j, max);
    assert OffersAt(sys, plan, q, a, max) && MemberAt(sys, plan, q, a);
    assert PostedUpTo(sys.posted, a, q, sys.done[q][a], j);
    assert OfferBounded(sys.posted, a, q, sys.procs[q].allocs[a], sys.done[q][a], max, j);
  }

  lemma {:induction false} MinOfOnes(values: seq<nat>)
    requires values != [] && forall i :: 0 <= i < |values| ==> values[i] == 1
    ensures Network.MinOf(values) == 1
  {
    if |values| > 1 { MinOfOnes(values[1..]); }
  }

  /** Without participants the first round is accepted. */
  lemma NobodyObjects(sys: System, plan: Plan, p: nat, a: nat, max: nat)
    requires SysInv(sys, plan) && AllOffersOk(sys, plan, max) && TakesPart(sys, plan, p, a)
    requires !HasParticipant(sys, plan, a)
    ensures sys.done[p][a] <= 3
  {
    var group := plan.groups[a];
    assert MemberAt(sys, plan, p, a);
    if sys.done[p][a] > 3 {
      assert Rejected(sys.posted, group, a, 1);
      forall q | q in group
        ensures sys.posted[(a, q, 1)] == 1
      {
        assert TakesPart(sys, plan, q, a) && MemberAt(sys, plan, q, a) && OffersAt(sys, plan, q, a, max);
        assert PostedUpTo(sys.posted, a, q, sys.done[q][a], 1);
        assert Abstains(sys.posted, a, q, sys.procs[q].allocs[a], sys.done[q][a], 1);
      }
      MinOfOnes(Row(sys.posted, group, a, 1));
    }
  }

  lemma StagesBounded(sys: System, plan: Plan, p: nat, a: nat, max: nat)
    requires SysInv(sys, plan) && AllOffersOk(sys, plan, max) && TakesPart(sys, plan, p, a)
    ensures sys.done[p][a] <= 3 * max + 5
  {
    if HasParticipant(sys, plan, a) {
      if sys.done[p][a] > 3 * max + 5 { WinnersClimb(sys, plan, p, a, max + 1, max); }
    } else {
      NobodyObjects(sys, plan, p, a, max);
    }
  }

  // ----- theorem: every run ends -----

  function Totalled(done: seq<seq<nat>>): (r: seq<nat>)
    ensures |r| == |done|
  {
    seq(|done|, p requires 0 <= p < |done| => Total(done[p]))
  }

  /** All stages that have been completed. */
  function Work(done: seq<seq<nat>>): nat {
    Total(Totalled(done))
  }

  predicate BystandersIdle(sys: System, plan: Plan)
    requires Fitting(sys, plan)
  {
    forall p, a :: 0 <= p < |sys.procs| && 0 <= a < |plan.groups| && p !in plan.groups[a] ==> sys.done[p][a] == 0
  }

  lemma StepIsWork(sys: System, plan: Plan, p: nat, a: nat, max: nat)
    requires CanStep(sys, plan, p, a, max)
    ensures Work(StepOf(sys, plan, p, a, max).done) == Work(sys.done) + 1
  {
    var done, done' := sys.done, StepOf(sys, plan, p, a, max).done;
    TotalStep(done[p], a);
    TotalStep(Totalled(done), p);
    assert Totalled(done') == Totalled(done)[p := Totalled(done)[p] + 1];
  }

  lemma {:induction false} RunIsWork(sys: System, plan: Plan, schedule: seq<(nat, nat)>, max: nat)
    requires SysInv(sys, plan) && AllOffersOk(sys, plan, max) && BystandersIdle(sys, plan)
    requires IsSystemRun(sys, plan, schedule, max)
    ensures var end := SystemAfter(sys, plan, schedule, max);
      && SysInv(end, plan) && AllOffersOk(end, plan, max) && BystandersIdle(end, plan) && |end.procs| == |sys.procs|
      && |schedule| + Work(sys.done) == Work(end.done)
    decreases |schedule|
  {
    if schedule != [] {
      var (p, a) := schedule[0];
      StepKeepsSys(sys, plan, p, a, max);
      StepKeepsOffers(sys, plan, p, a, max);
      StepIsWork(sys, plan, p, a, max);
      RunIsWork(StepOf(sys, plan, p, a, max), plan, schedule[1..], max);
    }
  }

  lemma NoWorkYet(done: seq<seq<nat>>)
    requires forall p, a :: 0 <= p < |done| && 0 <= a < |done[p]| ==> done[p][a] == 0
    ensures Work(done) == 0
  {
    forall p | 0 <= p < |done|
      ensures Totalled(done)[p] == 0
    {
      TotalBound(done[p], 0);
    }
    TotalBound(Totalled(done), 0);
  }

  lemma WorkBounded(sys: System, plan: Plan, max: nat)
    requires SysInv(sys, plan) && AllOffersOk(sys, plan, max) && BystandersIdle(sys, plan)
    ensures Work(sys.done) <= |sys.procs| * (|plan.groups| * (3 * max + 5))
  {
    var bound := 3 * max + 5;
    forall p | 0 <= p < |sys.procs|
      ensures Totalled(sys.done)[p] <= |plan.groups| * bound
    {
      forall a | 0 <= a < |plan.groups|
        ensures sys.done[p][a] <= bound
      {
        if p in plan.groups[a] { StagesBounded(sys, plan, p, a, max); }
      }
      TotalBound(sys.done[p], bound);
    }
    TotalBound(Totalled(sys.done), |plan.groups| * bound);
  }

  /** For any processes, tables and allocations in flight: every run is finite,
      and one that cannot go on has finished every allocation at every process,
      or a table is exhausted. */
  lemma EveryRunEnds(sys: System, plan: Plan, schedule: seq<(nat, nat)>, max: nat)
    requires Starting(sys, plan) && IsSystemRun(sys, plan, schedule, max)
    ensures |schedule| <= |sys.procs| * (|plan.groups| * (3 * max + 5))
    ensures var end := SystemAfter(sys, plan, schedule, max);
      && Fitting(end, plan)
      && ((forall p, a :: !CanStep(end, plan, p, a, max)) && NobodyExhausted(end, plan) ==>
            forall p: nat, a: nat :: TakesPart(end, plan, p, a) ==> HasCommitted(end.procs[p].allocs[a]))
  {
    StartingOk(sys, plan);
    StartingOffersOk(sys, plan, max);
    RunIsWork(sys, plan, schedule, max);
    var end := SystemAfter(sys, plan, schedule, max);
    NoWorkYet(sys.done);
    WorkBounded(end, plan, max);
    GatesNeverBlockAll(sys, plan, schedule, max);
    if (forall p, a :: !CanStep(end, plan, p, a, max)) && NobodyExhausted(end, plan) {
      forall p: nat, a: nat | TakesPart(end, plan, p, a)
        ensures HasCommitted(end.procs[p].allocs[a])
      {
        assert !Unfinished(end, plan, p, a) && MemberAt(end, plan, p, a);
      }
    }
  }
}
