/** Several CID allocations in flight at several processes: every process runs
    its allocations through its own table and gate, and the processes of an
    allocation meet in its collectives. */
module CidSystem {
  import opened CidRounds
  import opened CidOwnership
  import Network = CidNetwork

  /** What was contributed to the collectives: by allocation, process and stage. */
  type Posted = map<(nat, nat, nat), nat>

  /** `done[p][a]` counts the stages of allocation a that process p has completed. */
  datatype System = System(procs: seq<State>, done: seq<seq<nat>>, posted: Posted)

  /** The allocations: the processes that take part in the collectives of each,
      and the id by which the gates order it. */
  datatype Plan = Plan(groups: seq<seq<nat>>, ids: seq<int>)

  // ----- collectives -----

  predicate Complete(posted: Posted, group: seq<nat>, a: nat, k: nat) {
    forall q :: q in group ==> (a, q, k) in posted
  }

  function Row(posted: Posted, group: seq<nat>, a: nat, k: nat): (r: seq<nat>)
    requires Complete(posted, group, a, k)
    ensures |r| == |group|
  {
    seq(|group|, j requires 0 <= j < |group| && group[j] in group => posted[(a, group[j], k)])
  }

  /** All flags of this stage are up. */
  predicate Agreed(posted: Posted, group: seq<nat>, a: nat, k: nat)
    requires group != [] && Complete(posted, group, a, k)
  {
    Network.MinOf(Row(posted, group, a, k)) == 1
  }

  // ----- one step of one allocation at one process -----

  predicate Fitting(sys: System, plan: Plan) {
    && |sys.done| == |sys.procs| && |plan.ids| == |plan.groups|
    && (forall p :: 0 <= p < |sys.procs| ==> |sys.procs[p].allocs| == |sys.done[p]| == |plan.groups|)
  }

  predicate TakesPart(sys: System, plan: Plan, p: nat, a: nat) {
    p < |sys.procs| && a < |plan.groups| && p in plan.groups[a]
  }

  /** The collective that the next stage waits for is complete. */
  predicate Answered(sys: System, plan: Plan, p: nat, a: nat)
    requires Fitting(sys, plan) && TakesPart(sys, plan, p, a)
  {
    var k := sys.done[p][a];
    k % 3 != 0 ==> Complete(sys.posted, plan.groups[a], a, k - 1)
  }

  /** The callback of stage k, with the answer of the collective before it. */
  function EventAt(posted: Posted, group: seq<nat>, a: nat, k: nat): (e: Event)
    requires group != [] && (k % 3 != 0 ==> Complete(posted, group, a, k - 1))
    ensures e.i == a
  {
    if k % 3 == 0 then GetNext(a)
    else if k % 3 == 1 then CheckWinner(a, MaxOf(Row(posted, group, a, k - 1)))
    else CheckFlag(a, Agreed(posted, group, a, k - 1))
  }

  function EventOf(sys: System, plan: Plan, p: nat, a: nat): (e: Event)
    requires Fitting(sys, plan) && TakesPart(sys, plan, p, a) && Answered(sys, plan, p, a)
    ensures e.i == a
  {
    EventAt(sys.posted, plan.groups[a], a, sys.done[p][a])
  }

  predicate CanStep(sys: System, plan: Plan, p: nat, a: nat, max: nat) {
    && Fitting(sys, plan) && TakesPart(sys, plan, p, a) && Answered(sys, plan, p, a)
    && Enabled(sys.procs[p], EventOf(sys, plan, p, a), max)
  }

  /** A process contributes its reserved slot, then its flag. */
  function PostedBy(posted: Posted, a: nat, p: nat, k: nat, proc: Proc): Posted {
    if k % 3 == 2 then posted else posted[(a, p, k) := Network.Contribution(k % 3, proc)]
  }

  function StepOf(sys: System, plan: Plan, p: nat, a: nat, max: nat): System
    requires CanStep(sys, plan, p, a, max)
  {
    var k := sys.done[p][a];
    var s := Next(sys.procs[p], EventOf(sys, plan, p, a), max);
    System(sys.procs[p := s], sys.done[p := sys.done[p][a := k + 1]], PostedBy(sys.posted, a, p, k, s.allocs[a].p))
  }

  // ----- the invariant of one allocation at one process -----

  /** Where the allocation is, and what it has learnt from its collectives. */
  ghost predicate StageOk(posted: Posted, group: seq<nat>, a: nat, q: nat, al: Alloc, k: nat) {
    match al.phase
    case Idle => k % 3 == 0 && al.p.status == Running
    case AwaitMax => k % 3 == 1 && al.p.status == Running
    case AwaitMin =>
      && k % 3 == 2 && al.p.status == Running
      && Complete(posted, group, a, k - 2) && al.p.nextCid == MaxOf(Row(posted, group, a, k - 2))
      && (a, q, k - 1) in posted && posted[(a, q, k - 1)] == if al.p.flag then 1 else 0
    case Over =>
      match al.p.status
      case Running => false
      case Exhausted => k % 3 == 1
      case Committed(cid) =>
        && k % 3 == 0 && k > 0 && group != []
        && Complete(posted, group, a, k - 2) && Agreed(posted, group, a, k - 2)
        && Complete(posted, group, a, k - 3) && (al.p.participates ==> cid == MaxOf(Row(posted, group, a, k - 3)))
  }

  predicate PostedUpTo(posted: Posted, a: nat, q: nat, k: nat, j: nat) {
    && ((a, q, j) in posted <==> j < k && j % 3 != 2)
    && ((a, q, j) in posted && j % 3 == 1 ==> posted[(a, q, j)] <= 1)
  }

  ghost predicate AllPosted(posted: Posted, a: nat, q: nat, k: nat) {
    forall j: nat :: PostedUpTo(posted, a, q, k, j)
  }

  predicate HasCommitted(al: Alloc) {
    al.phase == Over && al.p.status.Committed?
  }

  ghost predicate Rejected(posted: Posted, group: seq<nat>, a: nat, k: nat) {
    group != [] && Complete(posted, group, a, k) && !Agreed(posted, group, a, k)
  }

  /** Every round decided so far was rejected, but for the one that committed. */
  ghost predicate RoundsOk(posted: Posted, group: seq<nat>, a: nat, al: Alloc, k: nat) {
    forall j: nat :: j % 3 == 1 && j + 1 < k && !(HasCommitted(al) && j + 2 == k) ==> Rejected(posted, group, a, j)
  }

  ghost predicate MemberOk(posted: Posted, group: seq<nat>, a: nat, q: nat, al: Alloc, k: nat) {
    && StageOk(posted, group, a, q, al, k)
    && AllPosted(posted, a, q, k)
    && RoundsOk(posted, group, a, al, k)
  }

  // ----- steps keep it -----

  lemma RowStable(posted: Posted, posted': Posted, group: seq<nat>, a: nat, k: nat)
    requires Complete(posted, group, a, k)
    requires forall key :: key in posted ==> key in posted' && posted'[key] == posted[key]
    ensures Complete(posted', group, a, k) && Row(posted', group, a, k) == Row(posted, group, a, k)
  {}

  lemma StageStable(posted: Posted, posted': Posted, group: seq<nat>, a: nat, q: nat, al: Alloc, k: nat)
    requires StageOk(posted, group, a, q, al, k)
    requires forall key :: key in posted ==> key in posted' && posted'[key] == posted[key]
    ensures StageOk(posted', group, a, q, al, k)
  {
    if al.phase == AwaitMin || HasCommitted(al) { RowStable(posted, posted', group, a, k - 2); }
    if HasCommitted(al) { RowStable(posted, posted', group, a, k - 3); }
  }

  lemma RoundsStable(posted: Posted, posted': Posted, group: seq<nat>, a: nat, al: Alloc, k: nat)
    requires RoundsOk(posted, group, a, al, k)
    requires forall key :: key in posted ==> key in posted' && posted'[key] == posted[key]
    ensures RoundsOk(posted', group, a, al, k)
  {
    forall j: nat | j % 3 == 1 && j + 1 < k && !(HasCommitted(al) && j + 2 == k)
      ensures Rejected(posted', group, a, j)
    {
      assert Rejected(posted, group, a, j);
      RowStable(posted, posted', group, a, j);
    }
  }

  /** A contribution of somebody else, or to something else, changes nothing. */
  lemma OthersStayOk(posted: Posted, group: seq<nat>, b: nat, q: nat, al: Alloc, k: nat, key: (nat, nat, nat), v: nat)
    requires MemberOk(posted, group, b, q, al, k) && key !in posted && (key.0 != b || key.1 != q)
    ensures MemberOk(posted[key := v], group, b, q, al, k)
  {
    var posted' := posted[key := v];
    StageStable(posted, posted', group, b, q, al, k);
    RoundsStable(posted, posted', group, b, al, k);
    forall j: nat
      ensures PostedUpTo(posted', b, q, k, j)
    {
      assert PostedUpTo(posted, b, q, k, j);
    }
  }

  /** The three callbacks at the process that steps. */
  lemma PostedMore(posted: Posted, a: nat, p: nat, k: nat, proc: Proc)
    requires AllPosted(posted, a, p, k)
    ensures AllPosted(PostedBy(posted, a, p, k, proc), a, p, k + 1)
    ensures k % 3 != 2 ==> (a, p, k) !in posted
  {
    assert PostedUpTo(posted, a, p, k, k);
    var posted', next := PostedBy(posted, a, p, k, proc), k + 1;
    forall j: nat
      ensures PostedUpTo(posted', a, p, next, j)
    {
      assert PostedUpTo(posted, a, p, k, j);
    }
  }

  lemma StepperStage(posted: Posted, group: seq<nat>, a: nat, p: nat, s: State, k: nat, e: Event, max: nat)
    requires a < |s.allocs| && p in group && Enabled(s, e, max) && e.i == a
    requires MemberOk(posted, group, a, p, s.allocs[a], k)
    requires (k % 3 != 0 ==> Complete(posted, group, a, k - 1)) && e == EventAt(posted, group, a, k)
    ensures var al := Next(s, e, max).allocs[a];
      StageOk(PostedBy(posted, a, p, k, al.p), group, a, p, al, k + 1)
  {
    var al := Next(s, e, max).allocs[a];
    var posted' := PostedBy(posted, a, p, k, al.p);
    PostedMore(posted, a, p, k, al.p);
    if k % 3 == 1 {
      RowStable(posted, posted', group, a, k - 1);
    }
  }

  lemma StepperRounds(posted: Posted, group: seq<nat>, a: nat, p: nat, s: State, k: nat, e: Event, max: nat)
    requires a < |s.allocs| && p in group && Enabled(s, e, max) && e.i == a
    requires MemberOk(posted, group, a, p, s.allocs[a], k)
    requires (k % 3 != 0 ==> Complete(posted, group, a, k - 1)) && e == EventAt(posted, group, a, k)
    ensures var al := Next(s, e, max).allocs[a];
      RoundsOk(PostedBy(posted, a, p, k, al.p), group, a, al, k + 1)
  {
    var al := Next(s, e, max).allocs[a];
    var posted' := PostedBy(posted, a, p, k, al.p);
    PostedMore(posted, a, p, k, al.p);
    forall j: nat | j % 3 == 1 && j + 1 < k + 1 && !(HasCommitted(al) && j + 2 == k + 1)
      ensures Rejected(posted', group, a, j)
    {
      if j + 1 < k { assert Rejected(posted, group, a, j); }
      RowStable(posted, posted', group, a, j);
    }
  }

  // ----- the invariant of the system -----

  ghost predicate MemberAt(sys: System, plan: Plan, p: nat, a: nat)
    requires Fitting(sys, plan) && TakesPart(sys, plan, p, a)
  {
    MemberOk(sys.posted, plan.groups[a], a, p, sys.procs[p].allocs[a], sys.done[p][a])
  }

  /** A gate is open, or set by an allocation that this process has not finished. */
  ghost predicate GateOk(s: State, plan: Plan, p: nat)
    requires |s.allocs| == |plan.groups| == |plan.ids|
  {
    s.lowestId == INT64_MAX || exists a :: Gates(s, plan, p, a)
  }

  predicate Gates(s: State, plan: Plan, p: nat, a: nat)
    requires |s.allocs| == |plan.groups| == |plan.ids|
  {
    a < |plan.groups| && p in plan.groups[a] && s.allocs[a].phase != Over && s.lowestId == plan.ids[a]
  }

  predicate SameIds(s: State, plan: Plan) {
    |s.allocs| == |plan.ids| && forall a :: 0 <= a < |plan.ids| ==> s.allocs[a].id == plan.ids[a] <= INT64_MAX
  }

  predicate GroupsExist(sys: System, plan: Plan) {
    forall a, q :: 0 <= a < |plan.groups| && q in plan.groups[a] ==> q < |sys.procs|
  }

  ghost predicate SysInv(sys: System, plan: Plan) {
    && Fitting(sys, plan) && GroupsExist(sys, plan)
    && (forall p :: 0 <= p < |sys.procs| ==> SameIds(sys.procs[p], plan) && GateOk(sys.procs[p], plan, p))
    && forall p: nat, a: nat :: TakesPart(sys, plan, p, a) ==> MemberAt(sys, plan, p, a)
  }

  lemma NextKeepsOthers(s: State, e: Event, max: nat)
    requires Enabled(s, e, max)
    ensures var s' := Next(s, e, max);
      && |s'.allocs| == |s.allocs| && s'.allocs[e.i].id == s.allocs[e.i].id
      && forall b :: 0 <= b < |s.allocs| && b != e.i ==> s'.allocs[b] == s.allocs[b]
  {}

  lemma GateKept(s: State, plan: Plan, p: nat, e: Event, max: nat)
    requires |s.allocs| == |plan.groups| == |plan.ids| && Enabled(s, e, max) && p in plan.groups[e.i]
    requires SameIds(s, plan) && GateOk(s, plan, p)
    ensures |Next(s, e, max).allocs| == |s.allocs| && SameIds(Next(s, e, max), plan) && GateOk(Next(s, e, max), plan, p)
  {
    var s' := Next(s, e, max);
    NextKeepsOthers(s, e, max);
    if s'.lowestId != INT64_MAX {
      if s'.lowestId == s.lowestId {
        var a :| Gates(s, plan, p, a);
        assert Gates(s', plan, p, a);
      } else {
        assert Gates(s', plan, p, e.i);
      }
    }
  }

  lemma StepMember(sys: System, plan: Plan, p: nat, a: nat, max: nat, q: nat, b: nat)
    requires SysInv(sys, plan) && CanStep(sys, plan, p, a, max) && TakesPart(sys, plan, q, b)
    requires Fitting(StepOf(sys, plan, p, a, max), plan)
    ensures MemberAt(StepOf(sys, plan, p, a, max), plan, q, b)
  {
    var sys' := StepOf(sys, plan, p, a, max);
    var k, s, e := sys.done[p][a], sys.procs[p], EventOf(sys, plan, p, a);
    assert MemberAt(sys, plan, p, a) && MemberAt(sys, plan, q, b);
    NextKeepsOthers(s, e, max);
    var proc := Next(s, e, max).allocs[a].p;
    PostedMore(sys.posted, a, p, k, proc);
    if q == p && b == a {
      StepperStage(sys.posted, plan.groups[a], a, p, s, k, e, max);
      StepperRounds(sys.posted, plan.groups[a], a, p, s, k, e, max);
    } else {
      assert sys'.procs[q].allocs[b] == sys.procs[q].allocs[b] && sys'.done[q][b] == sys.done[q][b];
      if k % 3 != 2 {
        OthersStayOk(sys.posted, plan.groups[b], b, q, sys.procs[q].allocs[b], sys.done[q][b], (a, p, k),
                     Network.Contribution(k % 3, proc));
      }
    }
  }

  lemma StepKeepsSys(sys: System, plan: Plan, p: nat, a: nat, max: nat)
    requires SysInv(sys, plan) && CanStep(sys, plan, p, a, max)
    ensures SysInv(StepOf(sys, plan, p, a, max), plan)
  {
    var sys' := StepOf(sys, plan, p, a, max);
    GateKept(sys.procs[p], plan, p, EventOf(sys, plan, p, a), max);
    forall q: nat, b: nat | TakesPart(sys', plan, q, b)
      ensures MemberAt(sys', plan, q, b)
    {
      StepMember(sys, plan, p, a, max, q, b);
    }
  }

  // ----- runs -----

  predicate IsSystemRun(sys: System, plan: Plan, schedule: seq<(nat, nat)>, max: nat)
    decreases |schedule|
  {
    schedule == []
    || (CanStep(sys, plan, schedule[0].0, schedule[0].1, max)
        && IsSystemRun(StepOf(sys, plan, schedule[0].0, schedule[0].1, max), plan, schedule[1..], max))
  }

  function SystemAfter(sys: System, plan: Plan, schedule: seq<(nat, nat)>, max: nat): System
    requires IsSystemRun(sys, plan, schedule, max)
    decreases |schedule|
  {
    if schedule == [] then sys
    else SystemAfter(StepOf(sys, plan, schedule[0].0, schedule[0].1, max), plan, schedule[1..], max)
  }

  /** Nothing has been done yet; the tables are arbitrary. */
  predicate Starting(sys: System, plan: Plan) {
    && Fitting(sys, plan) && GroupsExist(sys, plan) && sys.posted == map[]
    && (forall p :: 0 <= p < |sys.procs| ==>
          Fresh(sys.procs[p]) && SameIds(sys.procs[p], plan) && sys.procs[p].lowestId == INT64_MAX)
    && (forall p, a :: 0 <= p < |sys.procs| && 0 <= a < |plan.groups| ==> sys.done[p][a] == 0)
  }

  lemma StartingOk(sys: System, plan: Plan)
    requires Starting(sys, plan)
    ensures SysInv(sys, plan)
  {
    forall p: nat, a: nat | TakesPart(sys, plan, p, a)
      ensures MemberAt(sys, plan, p, a)
    {
      assert Fresh(sys.procs[p]);
      assert forall j: nat :: PostedUpTo(sys.posted, a, p, 0, j);
    }
  }

  lemma {:induction false} RunKeepsSys(sys: System, plan: Plan, schedule: seq<(nat, nat)>, max: nat)
    requires SysInv(sys, plan) && IsSystemRun(sys, plan, schedule, max)
    ensures SysInv(SystemAfter(sys, plan, schedule, max), plan)
    decreases |schedule|
  {
    if schedule != [] {
      StepKeepsSys(sys, plan, schedule[0].0, schedule[0].1, max);
      RunKeepsSys(StepOf(sys, plan, schedule[0].0, schedule[0].1, max), plan, schedule[1..], max);
    }
  }

  // ----- theorem: one CID for all participants, different ones for different allocations -----

  predicate CommittedTo(sys: System, plan: Plan, p: nat, a: nat, cid: nat)
    requires Fitting(sys, plan)
  {
    TakesPart(sys, plan, p, a) && sys.procs[p].allocs[a].p.participates && HasCid(sys.procs[p].allocs[a], cid)
  }

  lemma SameRound(sys: System, plan: Plan, a: nat, p: nat, q: nat)
    requires SysInv(sys, plan) && TakesPart(sys, plan, p, a) && TakesPart(sys, plan, q, a)
    requires HasCommitted(sys.procs[p].allocs[a])
    ensures sys.done[q][a] <= sys.done[p][a]
    ensures HasCommitted(sys.procs[q].allocs[a]) ==> sys.done[q][a] == sys.done[p][a]
    ensures sys.procs[q].allocs[a].phase != Over ==> sys.done[q][a] < sys.done[p][a]
  {
    assert MemberAt(sys, plan, p, a) && MemberAt(sys, plan, q, a);
    var group, al, k, kq := plan.groups[a], sys.procs[q].allocs[a], sys.done[p][a], sys.done[q][a];
    assert Agreed(sys.posted, group, a, k - 2);
    assert kq > k || (kq == k && !HasCommitted(al)) ==> Rejected(sys.posted, group, a, k - 2);
    assert HasCommitted(al) && kq < k ==> Rejected(sys.posted, group, a, kq - 2);
  }

  lemma OneCid(sys: System, plan: Plan, a: nat, p: nat, q: nat, cid: nat, cid': nat)
    requires SysInv(sys, plan) && CommittedTo(sys, plan, p, a, cid) && CommittedTo(sys, plan, q, a, cid')
    ensures cid == cid'
  {
    SameRound(sys, plan, a, p, q);
    assert MemberAt(sys, plan, p, a) && MemberAt(sys, plan, q, a);
  }

  /** Every commit of a non-participant in the run finds an empty slot. */
  predicate EveryCommitFits(sys: System, plan: Plan, schedule: seq<(nat, nat)>, max: nat)
    requires IsSystemRun(sys, plan, schedule, max)
    decreases |schedule|
  {
    schedule == []
    || (var (p, a) := schedule[0];
        Fits(sys.procs[p], EventOf(sys, plan, p, a), max)
        && EveryCommitFits(StepOf(sys, plan, p, a, max), plan, schedule[1..], max))
  }

  ghost predicate AllOwn(sys: System, tables: seq<Table>) {
    |tables| == |sys.procs| && forall p :: 0 <= p < |tables| ==> Inv(sys.procs[p], tables[p])
  }

  lemma {:induction false} RunKeepsOwn(sys: System, plan: Plan, schedule: seq<(nat, nat)>, max: nat, tables: seq<Table>)
    requires AllOwn(sys, tables) && IsSystemRun(sys, plan, schedule, max) && EveryCommitFits(sys, plan, schedule, max)
    ensures AllOwn(SystemAfter(sys, plan, schedule, max), tables)
    decreases |schedule|
  {
    if schedule != [] {
      var (p, a) := schedule[0];
      StepKeepsInv(sys.procs[p], tables[p], EventOf(sys, plan, p, a), max);
      RunKeepsOwn(StepOf(sys, plan, p, a, max), plan, schedule[1..], max, tables);
    }
  }

  /** For any processes, tables and allocations in flight, and any interleaving:
      all participants of an allocation that commit commit the same CID. */
  lemma OneCidPerAllocation(sys: System, plan: Plan, schedule: seq<(nat, nat)>, max: nat)
    requires Starting(sys, plan) && IsSystemRun(sys, plan, schedule, max)
    ensures var end := SystemAfter(sys, plan, schedule, max);
      && Fitting(end, plan)
      && forall a, p, q, cid, cid' :: CommittedTo(end, plan, p, a, cid) && CommittedTo(end, plan, q, a, cid') ==>
          cid == cid'
  {
    StartingOk(sys, plan);
    RunKeepsSys(sys, plan, schedule, max);
    var end := SystemAfter(sys, plan, schedule, max);
    forall a, p, q, cid, cid' | CommittedTo(end, plan, p, a, cid) && CommittedTo(end, plan, q, a, cid')
      ensures cid == cid'
    {
      OneCid(end, plan, a, p, q, cid, cid');
    }
  }

  /** ... and at every process different allocations have different CIDs, new
      ones that hold their communicators, as long as commits fit. */
  lemma DifferentCids(sys: System, plan: Plan, schedule: seq<(nat, nat)>, max: nat)
    requires Starting(sys, plan) && IsSystemRun(sys, plan, schedule, max) && EveryCommitFits(sys, plan, schedule, max)
    ensures var end := SystemAfter(sys, plan, schedule, max);
      |end.procs| == |sys.procs| && forall p :: 0 <= p < |sys.procs| ==> Owned(end.procs[p], sys.procs[p].table)
  {
    var tables := seq(|sys.procs|, p requires 0 <= p < |sys.procs| => sys.procs[p].table);
    forall p | 0 <= p < |tables|
      ensures Inv(sys.procs[p], tables[p])
    {
      assert Fresh(sys.procs[p]);
    }
    RunKeepsOwn(sys, plan, schedule, max, tables);
    var end := SystemAfter(sys, plan, schedule, max);
    forall p | 0 <= p < |sys.procs|
      ensures Owned(end.procs[p], sys.procs[p].table)
    {
      assert Inv(end.procs[p], tables[p]);
      InvIsOwned(end.procs[p], tables[p]);
    }
  }

  // ----- theorem: the gates never block everybody -----

  predicate Unfinished(sys: System, plan: Plan, p: nat, a: nat)
    requires Fitting(sys, plan)
  {
    TakesPart(sys, plan, p, a) && sys.procs[p].allocs[a].phase != Over
  }

  ghost predicate NobodyExhausted(sys: System, plan: Plan)
    requires Fitting(sys, plan)
  {
    forall p: nat, a: nat :: TakesPart(sys, plan, p, a) ==> sys.procs[p].allocs[a].p.status != Exhausted
  }

  /** No unfinished allocation goes before a at any gate. */
  ghost predicate FirstInLine(sys: System, plan: Plan, a: nat, n: nat)
    requires Fitting(sys, plan) && a < |plan.groups| && n <= |plan.groups|
  {
    forall b, q :: 0 <= b < n && Unfinished(sys, plan, q, b) ==> plan.ids[a] <= plan.ids[b]
  }

  lemma {:induction false} FindFirst(sys: System, plan: Plan, p: nat, a: nat, n: nat) returns (q: nat, b: nat)
    requires Fitting(sys, plan) && Unfinished(sys, plan, p, a) && n <= |plan.groups|
    ensures Unfinished(sys, plan, q, b) && FirstInLine(sys, plan, b, n) && plan.ids[b] <= plan.ids[a]
    decreases n
  {
    q, b := p, a;
    if n > 0 {
      var last := n - 1;
      q, b := FindFirst(sys, plan, p, a, last);
      if (exists r :: Unfinished(sys, plan, r, last)) && plan.ids[last] < plan.ids[b] {
        q :| Unfinished(sys, plan, q, last);
        b := last;
      }
    }
  }

  /** Of the processes of an unfinished allocation, the one furthest behind has
      not finished it and has its collective answered. */
  lemma FurthestBehind(sys: System, plan: Plan, p: nat, a: nat) returns (q: nat)
    requires SysInv(sys, plan) && NobodyExhausted(sys, plan) && Unfinished(sys, plan, p, a)
    ensures Unfinished(sys, plan, q, a) && Answered(sys, plan, q, a)
  {
    var group := plan.groups[a];
    assert forall j :: 0 <= j < |group| ==> group[j] in group;
    var stages := seq(|group|, j requires 0 <= j < |group| && group[j] < |sys.procs| => sys.done[group[j]][a]);
    var j := Network.Slowest(stages);
    q := group[j];
    assert q in group;
    forall r | r in group
      ensures sys.done[q][a] <= sys.done[r][a]
    {
      var i :| 0 <= i < |group| && group[i] == r;
      assert stages[j] <= stages[i];
    }
    assert MemberAt(sys, plan, q, a);
    if !Unfinished(sys, plan, q, a) { SameRound(sys, plan, a, q, p); }
    var k := sys.done[q][a];
    if k % 3 != 0 {
      forall r | r in group
        ensures (a, r, k - 1) in sys.posted
      {
        assert TakesPart(sys, plan, r, a) && MemberAt(sys, plan, r, a);
        assert PostedUpTo(sys.posted, a, r, sys.done[r][a], k - 1);
      }
    }
  }

  lemma FirstCanStep(sys: System, plan: Plan, q: nat, a: nat, max: nat)
    requires SysInv(sys, plan) && Unfinished(sys, plan, q, a) && Answered(sys, plan, q, a)
    requires FirstInLine(sys, plan, a, |plan.groups|)
    ensures CanStep(sys, plan, q, a, max)
  {
    assert MemberAt(sys, plan, q, a);
    var s, k := sys.procs[q], sys.done[q][a];
    if s.allocs[a].phase == Idle && s.lowestId != INT64_MAX {
      var b :| Gates(s, plan, q, b);
      assert Unfinished(sys, plan, q, b);
    }
    if s.allocs[a].phase == AwaitMin && Agreed(sys.posted, plan.groups[a], a, k - 1) {
      OwnFlagIsUp(sys.posted, plan.groups[a], a, q, k - 1);
    }
  }

  /** The minimum is 1 only if the own flag is. */
  lemma OwnFlagIsUp(posted: Posted, group: seq<nat>, a: nat, q: nat, k: nat)
    requires q in group && Complete(posted, group, a, k) && Agreed(posted, group, a, k)
    ensures posted[(a, q, k)] >= 1
  {
    var row := Row(posted, group, a, k);
    var j :| 0 <= j < |group| && group[j] == q;
    MinOfBound(row, j);
    assert row[j] == posted[(a, q, k)];
  }

  lemma {:induction false} MinOfBound(values: seq<nat>, j: nat)
    requires j < |values|
    ensures Network.MinOf(values) <= values[j]
  {
    if j > 0 { MinOfBound(values[1..], j - 1); }
  }

  /** As long as some process has not finished an allocation and no table is
      exhausted, some process can go on: the gates never block all of them. */
  lemma GatesNeverBlockAll(sys: System, plan: Plan, schedule: seq<(nat, nat)>, max: nat)
    requires Starting(sys, plan) && IsSystemRun(sys, plan, schedule, max)
    ensures var end := SystemAfter(sys, plan, schedule, max);
      && Fitting(end, plan)
      && (NobodyExhausted(end, plan) && (exists p, a :: Unfinished(end, plan, p, a)) ==>
          exists p, a :: CanStep(end, plan, p, a, max))
  {
    StartingOk(sys, plan);
    RunKeepsSys(sys, plan, schedule, max);
    var end := SystemAfter(sys, plan, schedule, max);
    if NobodyExhausted(end, plan) && exists p, a :: Unfinished(end, plan, p, a) {
      var p, a :| Unfinished(end, plan, p, a);
      var p1, b := FindFirst(end, plan, p, a, |plan.groups|);
      var q := FurthestBehind(end, plan, p1, b);
      FirstCanStep(end, plan, q, b, max);
    }
  }
}
