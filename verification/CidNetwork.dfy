/** CID agreement between processes that run at their own speed: the lockstep
    execution, its convergence, and the proof that every interleaving of the
    processes reproduces it. */
module CidNetwork {
  import opened CidRounds
  import opened Totals

  predicate AllRunning(ps: seq<Proc>) {
    forall i :: 0 <= i < |ps| ==> ps[i].status == Running
  }

  // ----- lockstep execution, stage by stage -----

  /** Stage 0 reserves, stage 1 checks the maximum, stage 2 decides on the minimum. */
  function StageAll(ps: seq<Proc>, stage: nat, max: nat): seq<Proc> {
    if stage == 0 then ReserveAll(ps, max)
    else if stage == 1 then CheckAll(ps, MaxOf(Offers(ps)))
    else DecideAll(ps, AllFlagged(ps), max)
  }

  function Lockstep(ps0: seq<Proc>, max: nat, k: nat): seq<Proc> {
    if k == 0 then ps0 else StageAll(Lockstep(ps0, max, k - 1), (k - 1) % 3, max)
  }

  lemma {:induction false} LockstepShape(ps0: seq<Proc>, max: nat, k: nat)
    ensures |Lockstep(ps0, max, k)| == |ps0|
  {
    if k > 0 { LockstepShape(ps0, max, k - 1); }
  }

  lemma StagesRun(ps: seq<Proc>, max: nat, t: nat)
    requires Ready(ps, max, t)
    ensures AllRunning(ReserveAll(ps, max)) && AllRunning(Checked(ps, max))
  {
    forall i | 0 <= i < |ps| ensures Reserve(ps[i], max).status == Running {
      assert Acceptable(ps[i], t);
      if ps[i].participates { ReserveEffect(ps[i], max, t); }
    }
  }

  predicate RunningBetween(ps0: seq<Proc>, max: nat, from: nat, to: nat) {
    forall k :: from <= k < to ==> AllRunning(Lockstep(ps0, max, k))
  }

  lemma StagesAreRound(ps0: seq<Proc>, max: nat, k: nat)
    requires k % 3 == 0
    ensures Lockstep(ps0, max, k + 1) == ReserveAll(Lockstep(ps0, max, k), max)
    ensures Lockstep(ps0, max, k + 2) == Checked(Lockstep(ps0, max, k), max)
    ensures Lockstep(ps0, max, k + 3) == Round(Lockstep(ps0, max, k), max)
  {
    assert (k + 1) % 3 == 1 && (k + 2) % 3 == 2;
  }

  lemma ThreeRunning(ps0: seq<Proc>, max: nat, k: nat)
    requires AllRunning(Lockstep(ps0, max, k)) && AllRunning(Lockstep(ps0, max, k + 1))
    requires AllRunning(Lockstep(ps0, max, k + 2))
    ensures RunningBetween(ps0, max, k, k + 3)
  {
    forall j | k <= j < k + 3 ensures AllRunning(Lockstep(ps0, max, j)) {
      assert j == k || j == k + 1 || j == k + 2;
    }
  }

  lemma ThreeStages(ps0: seq<Proc>, max: nat, t: nat, k: nat)
    requires k % 3 == 0 && Ready(Lockstep(ps0, max, k), max, t)
    ensures RunningBetween(ps0, max, k, k + 3)
    ensures Lockstep(ps0, max, k + 3) == Round(Lockstep(ps0, max, k), max)
  {
    StagesAreRound(ps0, max, k);
    StagesRun(Lockstep(ps0, max, k), max, t);
    ThreeRunning(ps0, max, k);
  }

  /** What rejected rounds preserve of a process. */
  predicate Kept(p: Proc, q: Proc) {
    SameTable(p, q) && (!p.participates ==> q.start == p.start)
  }

  predicate AllKept(ps0: seq<Proc>, ps: seq<Proc>) {
    |ps| == |ps0| && forall i :: 0 <= i < |ps0| ==> Kept(ps0[i], ps[i])
  }

  predicate AllFinished(ps0: seq<Proc>, ps: seq<Proc>, t: nat, max: nat) {
    |ps| == |ps0| && forall i :: 0 <= i < |ps0| ==> Finished(ps0[i], ps[i], t, max)
  }

  /** Some participant has got at least as far as b. */
  predicate Reached(ps: seq<Proc>, b: nat) {
    exists i :: 0 <= i < |ps| && ps[i].participates && ps[i].start >= b
  }

  lemma FinishedFromKept(p0: Proc, p: Proc, q: Proc, t: nat, max: nat)
    requires Kept(p0, p) && Finished(p, q, t, max)
    ensures Finished(p0, q, t, max)
  {}

  lemma AcceptedKept(ps0: seq<Proc>, ps: seq<Proc>, max: nat, t: nat)
    requires Ready(ps, max, t) && AllKept(ps0, ps) && Winner(ps, max) == t
    ensures AllFinished(ps0, Round(ps, max), t, max)
  {
    AcceptedRound(ps, max, t);
    forall i | 0 <= i < |ps0| ensures Finished(ps0[i], Round(ps, max)[i], t, max) {
      assert Kept(ps0[i], ps[i]);
      FinishedFromKept(ps0[i], ps[i], Round(ps, max)[i], t, max);
    }
  }

  lemma RejectedKept(ps0: seq<Proc>, ps: seq<Proc>, max: nat, t: nat, b: nat)
    requires Ready(ps, max, t) && AllKept(ps0, ps) && Reached(ps, b) && Winner(ps, max) != t
    ensures b <= Winner(ps, max) < t
    ensures Ready(Round(ps, max), max, t) && AllKept(ps0, Round(ps, max))
    ensures Reached(Round(ps, max), Winner(ps, max) + 1)
  {
    WinnerBounds(ps, max, t);
    RejectedRound(ps, max, t);
    RejectedEach(ps, max, t);
    KeptByRejection(ps0, ps, Round(ps, max), Winner(ps, max));
    var i :| 0 <= i < |ps| && ps[i].participates && Round(ps, max)[i].start == Winner(ps, max) + 1;
    assert Round(ps, max)[i].participates;
  }

  /** Before stage k nobody has finished and some participant has reached b. */
  predicate Searching(ps0: seq<Proc>, max: nat, t: nat, k: nat, b: nat) {
    var ps := Lockstep(ps0, max, k);
    k % 3 == 0 && Ready(ps, max, t) && AllKept(ps0, ps) && b <= t && Reached(ps, b)
  }

  /** One round either finishes everywhere or moves the search forward. */
  lemma RoundOutcome(ps0: seq<Proc>, ps: seq<Proc>, max: nat, t: nat, b: nat) returns (accepted: bool, next: nat)
    requires Ready(ps, max, t) && AllKept(ps0, ps) && Reached(ps, b)
    ensures accepted ==> AllFinished(ps0, Round(ps, max), t, max)
    ensures !accepted ==> b < next <= t && Ready(Round(ps, max), max, t)
    ensures !accepted ==> AllKept(ps0, Round(ps, max)) && Reached(Round(ps, max), next)
  {
    accepted, next := Winner(ps, max) == t, Winner(ps, max) + 1;
    if accepted {
      AcceptedKept(ps0, ps, max, t);
    } else {
      RejectedKept(ps0, ps, max, t, b);
    }
  }

  lemma RoundStep(ps0: seq<Proc>, max: nat, t: nat, k: nat, b: nat) returns (accepted: bool, next: nat)
    requires Searching(ps0, max, t, k, b)
    ensures RunningBetween(ps0, max, k, k + 3)
    ensures accepted ==> AllFinished(ps0, Lockstep(ps0, max, k + 3), t, max)
    ensures !accepted ==> b < next <= t && Searching(ps0, max, t, k + 3, next)
  {
    ThreeStages(ps0, max, t, k);
    accepted, next := RoundOutcome(ps0, Lockstep(ps0, max, k), max, t, b);
  }

  /** From stage k on, at most t - b more rounds are rejected before all commit on t. */
  lemma {:induction false} Convergence(ps0: seq<Proc>, max: nat, t: nat, k: nat, b: nat) returns (n: nat)
    requires Searching(ps0, max, t, k, b)
    ensures k < n <= k + 3 * (t - b + 1)
    ensures RunningBetween(ps0, max, k, n)
    ensures AllFinished(ps0, Lockstep(ps0, max, n), t, max)
    decreases t - b
  {
    var accepted, next := RoundStep(ps0, max, t, k, b);
    if accepted {
      n := k + 3;
    } else {
      n := Convergence(ps0, max, t, k + 3, next);
    }
  }

  lemma KeptByRejection(ps0: seq<Proc>, ps: seq<Proc>, qs: seq<Proc>, w: nat)
    requires AllKept(ps0, ps) && |qs| == |ps|
    requires forall i :: 0 <= i < |ps| ==> RolledBack(ps[i], qs[i], w)
    ensures AllKept(ps0, qs)
  {
    forall i | 0 <= i < |ps0| ensures Kept(ps0[i], qs[i]) {
      assert Kept(ps0[i], ps[i]) && RolledBack(ps[i], qs[i], w);
    }
  }

  // ----- the asynchronous system -----

  /** `pc[i]` counts the stages process i has completed, `posted` what each
      process has contributed to the collective of each stage. */
  datatype Net = Net(procs: seq<Proc>, pc: seq<nat>, posted: map<(nat, nat), nat>)

  function Start(ps0: seq<Proc>): Net {
    Net(ps0, seq(|ps0|, _ => 0), map[])
  }

  function MinOf(values: seq<nat>): nat
    requires values != []
  {
    if |values| == 1 then values[0]
    else
      var rest := MinOf(values[1..]);
      if rest < values[0] then rest else values[0]
  }

  /** A process contributes its reserved slot, then its flag. */
  function Contribution(stage: nat, p: Proc): nat {
    if stage == 0 then p.nextLocal else if p.flag then 1 else 0
  }

  predicate WellFormed(net: Net) {
    |net.pc| == |net.procs|
  }

  predicate Contributed(net: Net, q: nat, k: nat) { (q, k) in net.posted }

  /** The collective of stage k is complete once everyone has contributed. */
  predicate Complete(net: Net, k: nat) {
    forall q :: 0 <= q < |net.procs| ==> Contributed(net, q, k)
  }

  function Row(net: Net, k: nat): seq<nat>
    requires Complete(net, k)
  {
    seq(|net.procs|, q requires 0 <= q < |net.procs| && Contributed(net, q, k) => net.posted[(q, k)])
  }

  predicate CanStep(net: Net, i: nat) {
    && WellFormed(net) && i < |net.procs| && net.procs[i].status == Running
    && (net.pc[i] % 3 != 0 ==> Complete(net, net.pc[i] - 1))
  }

  function StepProc(net: Net, i: nat, max: nat): Proc
    requires CanStep(net, i)
  {
    var k := net.pc[i];
    if k % 3 == 0 then Reserve(net.procs[i], max)
    else if k % 3 == 1 then Check(net.procs[i], MaxOf(Row(net, k - 1)))
    else Decide(net.procs[i], MinOf(Row(net, k - 1)) == 1, max)
  }

  function Step(net: Net, i: nat, max: nat): Net
    requires CanStep(net, i)
  {
    var k, p := net.pc[i], StepProc(net, i, max);
    Net(net.procs[i := p], net.pc[i := k + 1],
        if k % 3 == 2 then net.posted else net.posted[(i, k) := Contribution(k % 3, p)])
  }

  predicate IsRun(net: Net, schedule: seq<nat>, max: nat)
    decreases |schedule|
  {
    schedule == [] || (CanStep(net, schedule[0]) && IsRun(Step(net, schedule[0], max), schedule[1..], max))
  }

  function After(net: Net, schedule: seq<nat>, max: nat): Net
    requires IsRun(net, schedule, max)
    decreases |schedule|
  {
    if schedule == [] then net else After(Step(net, schedule[0], max), schedule[1..], max)
  }

  // ----- every interleaving follows the lockstep execution -----

  predicate Posts(k: nat) { k % 3 != 2 }

  /** Each process is where lockstep execution was at its stage, and has
      contributed what it contributed there. */
  ghost predicate Follows(net: Net, ps0: seq<Proc>, max: nat) {
    && WellFormed(net) && |net.procs| == |ps0|
    && (forall i :: 0 <= i < |ps0| ==> InLockstep(net, ps0, max, i) && HasPosted(net, i))
    && (forall key :: key in net.posted ==> PostedInLockstep(net, ps0, max, key.0, key.1))
  }

  ghost predicate InLockstep(net: Net, ps0: seq<Proc>, max: nat, i: nat)
    requires WellFormed(net) && i < |net.procs|
  {
    && i < |Lockstep(ps0, max, net.pc[i])|
    && net.procs[i] == Lockstep(ps0, max, net.pc[i])[i]
  }

  ghost predicate HasPosted(net: Net, i: nat)
    requires WellFormed(net) && i < |net.procs|
  {
    forall k :: 0 <= k < net.pc[i] && Posts(k) ==> Contributed(net, i, k)
  }

  ghost predicate PostedInLockstep(net: Net, ps0: seq<Proc>, max: nat, i: nat, k: nat) {
    && (i, k) in net.posted && WellFormed(net)
    && i < |net.procs| && k < net.pc[i]
    && i < |Lockstep(ps0, max, k + 1)|
    && net.posted[(i, k)] == Contribution(k % 3, Lockstep(ps0, max, k + 1)[i])
  }

  lemma {:induction false} MinOfFlags(values: seq<nat>)
    requires values != [] && forall i :: 0 <= i < |values| ==> values[i] <= 1
    ensures MinOf(values) <= 1
    ensures MinOf(values) == 1 <==> forall i :: 0 <= i < |values| ==> values[i] == 1
  {
    if |values| > 1 {
      var rest := values[1..];
      MinOfFlags(rest);
      if forall i :: 0 <= i < |rest| ==> rest[i] == 1 {
        forall i | 1 <= i < |values| ensures values[i] == 1 { assert values[i] == rest[i - 1]; }
      } else {
        var i :| 0 <= i < |rest| && rest[i] != 1;
        assert values[i + 1] != 1;
      }
    }
  }

  /** A complete collective yields what it yielded in lockstep. */
  lemma RowInLockstep(net: Net, ps0: seq<Proc>, max: nat, k: nat)
    requires Follows(net, ps0, max) && Complete(net, k)
    ensures |Lockstep(ps0, max, k + 1)| == |ps0|
    ensures k % 3 == 0 ==> Row(net, k) == Offers(Lockstep(ps0, max, k + 1))
    ensures k % 3 == 1 && ps0 != [] ==> (MinOf(Row(net, k)) == 1 <==> AllFlagged(Lockstep(ps0, max, k + 1)))
  {
    LockstepShape(ps0, max, k + 1);
    var ps, row := Lockstep(ps0, max, k + 1), Row(net, k);
    forall q | 0 <= q < |ps0| ensures row[q] == Contribution(k % 3, ps[q]) {
      assert Contributed(net, q, k);
      assert PostedInLockstep(net, ps0, max, (q, k).0, (q, k).1);
    }
    if k % 3 == 1 && ps0 != [] {
      MinOfFlags(row);
    }
  }

  /** Process i's share of a lockstep stage. */
  lemma ShareOfStage(ps0: seq<Proc>, max: nat, k: nat, i: nat)
    requires i < |ps0|
    ensures |Lockstep(ps0, max, k)| == |Lockstep(ps0, max, k + 1)| == |ps0|
    ensures var ps := Lockstep(ps0, max, k);
      Lockstep(ps0, max, k + 1)[i] == if k % 3 == 0 then Reserve(ps[i], max)
                                      else if k % 3 == 1 then Check(ps[i], MaxOf(Offers(ps)))
                                      else Decide(ps[i], AllFlagged(ps), max)
  {
    LockstepShape(ps0, max, k);
    LockstepShape(ps0, max, k + 1);
  }

  lemma CollectiveInLockstep(net: Net, ps0: seq<Proc>, max: nat, k: nat)
    requires Follows(net, ps0, max) && ps0 != [] && k > 0 && Complete(net, k - 1)
    ensures k % 3 == 1 ==> MaxOf(Row(net, k - 1)) == MaxOf(Offers(Lockstep(ps0, max, k)))
    ensures k % 3 == 2 ==> (MinOf(Row(net, k - 1)) == 1 <==> AllFlagged(Lockstep(ps0, max, k)))
  {
    var c := k - 1;
    assert c + 1 == k;
    assert (k % 3 == 1 ==> c % 3 == 0) && (k % 3 == 2 ==> c % 3 == 1);
    RowInLockstep(net, ps0, max, c);
  }

  /** The step process i takes is its share of lockstep's next stage. */
  lemma StepInLockstep(net: Net, ps0: seq<Proc>, max: nat, i: nat)
    requires Follows(net, ps0, max) && CanStep(net, i)
    ensures i < |Lockstep(ps0, max, net.pc[i] + 1)|
    ensures StepProc(net, i, max) == Lockstep(ps0, max, net.pc[i] + 1)[i]
  {
    var k := net.pc[i];
    assert InLockstep(net, ps0, max, i);
    ShareOfStage(ps0, max, k, i);
    if k % 3 != 0 { CollectiveInLockstep(net, ps0, max, k); }
  }

  lemma StepPosts(net: Net, ps0: seq<Proc>, max: nat, i: nat, key: (nat, nat))
    requires Follows(net, ps0, max) && CanStep(net, i)
    requires key in Step(net, i, max).posted
    ensures PostedInLockstep(Step(net, i, max), ps0, max, key.0, key.1)
  {
    StepInLockstep(net, ps0, max, i);
    if key != (i, net.pc[i]) {
      assert PostedInLockstep(net, ps0, max, key.0, key.1);
    }
  }

  lemma StepPostsMore(net: Net, ps0: seq<Proc>, max: nat, i: nat, j: nat)
    requires Follows(net, ps0, max) && CanStep(net, i) && j < |ps0|
    ensures HasPosted(Step(net, i, max), j)
  {
    assert HasPosted(net, j);
    var next := Step(net, i, max);
    forall k | 0 <= k < next.pc[j] && Posts(k) ensures Contributed(next, j, k) {
      if k < net.pc[j] { assert Contributed(net, j, k); }
    }
  }

  lemma StepKeepsEach(net: Net, ps0: seq<Proc>, max: nat, i: nat, j: nat)
    requires Follows(net, ps0, max) && CanStep(net, i) && j < |ps0|
    ensures InLockstep(Step(net, i, max), ps0, max, j) && HasPosted(Step(net, i, max), j)
  {
    StepPostsMore(net, ps0, max, i, j);
    if i == j { StepInLockstep(net, ps0, max, i); } else { assert InLockstep(net, ps0, max, j); }
  }

  lemma StepFollows(net: Net, ps0: seq<Proc>, max: nat, i: nat)
    requires Follows(net, ps0, max) && CanStep(net, i)
    ensures Follows(Step(net, i, max), ps0, max)
  {
    var next := Step(net, i, max);
    forall j | 0 <= j < |ps0| ensures InLockstep(next, ps0, max, j) && HasPosted(next, j) {
      StepKeepsEach(net, ps0, max, i, j);
    }
    forall key | key in next.posted ensures PostedInLockstep(next, ps0, max, key.0, key.1) {
      StepPosts(net, ps0, max, i, key);
    }
  }

  // ----- the theorem -----

  /** No process overtakes the end of the lockstep execution. */
  ghost predicate Bounded(net: Net, n: nat) {
    WellFormed(net) && forall i :: 0 <= i < |net.procs| ==> net.pc[i] <= n
  }

  ghost predicate OnTrack(net: Net, ps0: seq<Proc>, max: nat, t: nat, n: nat) {
    Follows(net, ps0, max) && Bounded(net, n) && AllFinished(ps0, Lockstep(ps0, max, n), t, max)
  }

  /** A process that still runs has not reached the last stage. */
  lemma NotAtEnd(net: Net, ps0: seq<Proc>, max: nat, t: nat, n: nat, i: nat)
    requires OnTrack(net, ps0, max, t, n) && CanStep(net, i)
    ensures net.pc[i] < n
  {
    assert InLockstep(net, ps0, max, i);
    assert Finished(ps0[i], Lockstep(ps0, max, n)[i], t, max);
  }

  lemma StepOnTrack(net: Net, ps0: seq<Proc>, max: nat, t: nat, n: nat, i: nat)
    requires OnTrack(net, ps0, max, t, n) && CanStep(net, i)
    ensures OnTrack(Step(net, i, max), ps0, max, t, n) && Total(Step(net, i, max).pc) == Total(net.pc) + 1
  {
    NotAtEnd(net, ps0, max, t, n, i);
    StepFollows(net, ps0, max, i);
    TotalStep(net.pc, i);
  }

  lemma {:induction false} RunOnTrack(net: Net, ps0: seq<Proc>, max: nat, t: nat, n: nat, schedule: seq<nat>)
    requires OnTrack(net, ps0, max, t, n) && IsRun(net, schedule, max)
    ensures OnTrack(After(net, schedule, max), ps0, max, t, n)
    ensures Total(After(net, schedule, max).pc) == Total(net.pc) + |schedule|
    decreases |schedule|
  {
    if schedule != [] {
      StepOnTrack(net, ps0, max, t, n, schedule[0]);
      RunOnTrack(Step(net, schedule[0], max), ps0, max, t, n, schedule[1..]);
    }
  }

  lemma PreviousPosts(k: nat)
    requires k % 3 != 0
    ensures k > 0 && Posts(k - 1)
  {}

  /** Whoever is furthest behind can always go on. */
  lemma SlowestCanStep(net: Net, ps0: seq<Proc>, max: nat, i: nat)
    requires Follows(net, ps0, max) && i < |ps0| && net.procs[i].status == Running
    requires forall j :: 0 <= j < |ps0| ==> net.pc[i] <= net.pc[j]
    ensures CanStep(net, i)
  {
    var k := net.pc[i];
    if k % 3 != 0 {
      PreviousPosts(k);
      var c := k - 1;
      forall q | 0 <= q < |net.procs| ensures Contributed(net, q, c) {
        assert HasPosted(net, q);
      }
    }
  }

  lemma {:induction false} Slowest(pc: seq<nat>) returns (i: nat)
    requires pc != []
    ensures i < |pc| && forall j :: 0 <= j < |pc| ==> pc[i] <= pc[j]
    decreases |pc|
  {
    if |pc| == 1 {
      i := 0;
    } else {
      var n := |pc| - 1;
      i := Slowest(pc[..n]);
      assert forall j :: 0 <= j < n ==> pc[..n][j] == pc[j];
      if pc[n] < pc[i] { i := n; }
    }
  }

  /** A process has committed exactly when it has completed all n stages. */
  lemma CommittedAtEnd(net: Net, ps0: seq<Proc>, max: nat, t: nat, n: nat, i: nat)
    requires OnTrack(net, ps0, max, t, n) && RunningBetween(ps0, max, 0, n) && i < |ps0|
    ensures net.procs[i].status == Running || Finished(ps0[i], net.procs[i], t, max)
    ensures net.procs[i].status == Running <==> net.pc[i] < n
  {
    assert InLockstep(net, ps0, max, i);
    assert Finished(ps0[i], Lockstep(ps0, max, n)[i], t, max);
    assert net.pc[i] < n ==> AllRunning(Lockstep(ps0, max, net.pc[i]));
  }

  lemma SomeoneCanStep(net: Net, ps0: seq<Proc>, max: nat, t: nat, n: nat, r: nat) returns (i: nat)
    requires OnTrack(net, ps0, max, t, n) && RunningBetween(ps0, max, 0, n)
    requires r < |ps0| && net.procs[r].status == Running
    ensures CanStep(net, i)
  {
    i := Slowest(net.pc);
    CommittedAtEnd(net, ps0, max, t, n, r);
    CommittedAtEnd(net, ps0, max, t, n, i);
    SlowestCanStep(net, ps0, max, i);
  }

  lemma StartOnTrack(ps0: seq<Proc>, max: nat, t: nat) returns (n: nat)
    requires Ready(ps0, max, t)
    ensures n <= 3 * (t + 1) && RunningBetween(ps0, max, 0, n) && OnTrack(Start(ps0), ps0, max, t, n)
  {
    forall i | 0 <= i < |ps0| ensures Kept(ps0[i], ps0[i]) {}
    var p :| 0 <= p < |ps0| && ps0[p].participates;
    assert ps0[p].start >= 0;
    assert Reached(ps0, 0);
    n := Convergence(ps0, max, t, 0, 0);
  }

  /** Everyone who is not running any more has finished on the target. */
  predicate Consistent(net: Net, ps0: seq<Proc>, max: nat, t: nat) {
    && |net.procs| == |ps0|
    && forall i :: 0 <= i < |ps0| ==> net.procs[i].status == Running || Finished(ps0[i], net.procs[i], t, max)
  }

  predicate SomeoneRuns(net: Net) {
    exists i :: 0 <= i < |net.procs| && net.procs[i].status == Running
  }

  /** For any number of processes and any interleaving: whoever finishes holds
      the target slot (its own lowest slot if it does not participate), its
      table otherwise unchanged; the system never blocks before all have
      finished; and no run is longer than three stages a round. */
  lemma Agreement(ps0: seq<Proc>, max: nat, t: nat, schedule: seq<nat>)
    requires Ready(ps0, max, t) && IsRun(Start(ps0), schedule, max)
    ensures Consistent(After(Start(ps0), schedule, max), ps0, max, t)
    ensures SomeoneRuns(After(Start(ps0), schedule, max)) ==> exists i :: CanStep(After(Start(ps0), schedule, max), i)
    ensures |schedule| <= |ps0| * (3 * (t + 1))
  {
    var n := StartOnTrack(ps0, max, t);
    var net := After(Start(ps0), schedule, max);
    RunOnTrack(Start(ps0), ps0, max, t, n, schedule);
    forall i | 0 <= i < |ps0| ensures net.procs[i].status == Running || Finished(ps0[i], net.procs[i], t, max) {
      CommittedAtEnd(net, ps0, max, t, n, i);
    }
    if SomeoneRuns(net) {
      var r :| 0 <= r < |net.procs| && net.procs[r].status == Running;
      var i := SomeoneCanStep(net, ps0, max, t, n, r);
    }
    TotalZero(|ps0|);
    TotalBound(net.pc, n);
    MulBound(|ps0|, n, 3 * (t + 1));
  }

  lemma MulBound(a: nat, b: nat, c: nat)
    requires b <= c
    ensures a * b <= a * c
  {}

  /** The algorithm's promise in its own terms: with accurate starts and some
      slot below `max` free at every participant, the CID agreed on is the
      smallest slot that is free at all of them. */
  lemma SmallestCommonSlot(ps0: seq<Proc>, max: nat, s: nat, schedule: seq<nat>) returns (t: nat)
    requires AllRunning(ps0) && AccurateStarts(ps0) && Capacity(ps0, max)
    requires exists i :: 0 <= i < |ps0| && ps0[i].participates
    requires s < max && FreeAtAll(ps0, s)
    requires IsRun(Start(ps0), schedule, max)
    ensures FreeAtAll(ps0, t) && t <= s && forall r :: 0 <= r < t ==> !FreeAtAll(ps0, r)
    ensures Consistent(After(Start(ps0), schedule, max), ps0, max, t)
    ensures SomeoneRuns(After(Start(ps0), schedule, max)) ==> exists i :: CanStep(After(Start(ps0), schedule, max), i)
    ensures |schedule| <= |ps0| * (3 * (t + 1))
  {
    AccurateAcceptance(ps0, s);
    t := TargetExists(ps0, max, s);
    AccurateTarget(ps0, max, t);
    Agreement(ps0, max, t, schedule);
  }
}
