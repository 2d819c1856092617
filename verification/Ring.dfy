/** The ring program: a token goes round n ranks, rank 0 counts it down from m,
    and everyone leaves the loop after passing on the zero. */
module Ring {

  datatype Pc = Begin | Receiving | Sending(message: int) | Draining | Exited

  /** `inbox[r]` holds the sent but undelivered messages to rank r, oldest first. */
  datatype State = State(pc: seq<Pc>, inbox: seq<seq<int>>, deliveries: nat)

  function Next(r: nat, n: nat): nat
    requires n > 0
  {
    (r + 1) % n
  }

  function Start(n: nat): State {
    State(seq(n, r => if r == 0 then Begin else Receiving), seq(n, _ => []), 0)
  }

  predicate Shaped(s: State, n: nat) {
    |s.pc| == |s.inbox| == n > 0
  }

  predicate CanStep(s: State, n: nat, r: nat)
    requires Shaped(s, n)
  {
    r < n &&
    match s.pc[r]
    case Begin => true
    case Sending(_) => true
    case Receiving => s.inbox[r] != []
    case Draining => s.inbox[r] != []
    case Exited => false
  }

  function SendTo(s: State, n: nat, r: nat, message: int, pc: Pc): State
    requires Shaped(s, n) && r < n
  {
    var to := Next(r, n);
    State(s.pc[r := pc], s.inbox[to := s.inbox[to] + [message]], s.deliveries)
  }

  /** What rank r does next; `m` is the starting value. */
  function Step(s: State, n: nat, m: nat, r: nat): State
    requires Shaped(s, n) && CanStep(s, n, r)
  {
    match s.pc[r]
    case Begin => SendTo(s, n, r, m, Receiving)
    case Sending(message) =>
      SendTo(s, n, r, message, if message != 0 then Receiving else if r == 0 then Draining else Exited)
    case Receiving =>
      var message := if r == 0 then s.inbox[r][0] - 1 else s.inbox[r][0];
      State(s.pc[r := Sending(message)], s.inbox[r := s.inbox[r][1..]], s.deliveries + 1)
    case Draining =>
      State(s.pc[r := Exited], s.inbox[r := s.inbox[r][1..]], s.deliveries + 1)
    case Exited => s
  }

  // ----- where the token is -----

  /** The token's history so far: `laps` whole laps and then `at` ranks further,
      either under way to the next rank or held by rank `at`. */
  datatype Where = AtStart | Flying(laps: nat, at: nat) | Held(laps: nat, at: nat) | AtEnd

  predicate Legal(w: Where, n: nat, m: nat) {
    (w.Flying? || w.Held? ==> w.laps <= m && w.at < n) && (w.Held? ==> w.laps > 0 || w.at > 0)
  }

  /** Whether rank r has passed on the zero once `laps`, `at` have been completed. */
  function PcAfter(m: nat, laps: nat, at: nat, r: nat): Pc {
    if r == 0 then (if laps >= m then Draining else Receiving)
    else if laps >= m && at >= r then Exited else Receiving
  }

  ghost predicate At(s: State, n: nat, m: nat, w: Where) {
    && Shaped(s, n) && Legal(w, n, m)
    && match w
       case AtStart =>
         s == Start(n)
       case Flying(laps, at) =>
         && s.deliveries == laps * n + at
         && (forall r :: 0 <= r < n ==> s.pc[r] == PcAfter(m, laps, at, r))
         && (forall r :: 0 <= r < n ==> s.inbox[r] == if r == Next(at, n) then [m - laps] else [])
       case Held(laps, at) =>
         && s.deliveries == laps * n + at
         && (forall r :: 0 <= r < n ==> s.pc[r] == if r == at then Sending(m - laps) else PcAfter(m, laps, at, r))
         && (forall r :: 0 <= r < n ==> s.inbox[r] == [])
       case AtEnd =>
         && s.deliveries == (m + 1) * n
         && (forall r :: 0 <= r < n ==> s.pc[r] == Exited && s.inbox[r] == [])
  }

  function Advance(w: Where, n: nat, m: nat): Where {
    match w
    case AtStart => Flying(0, 0)
    case Held(laps, at) => Flying(laps, at)
    case Flying(laps, at) =>
      if at + 1 < n then Held(laps, at + 1) else if laps < m then Held(laps + 1, 0) else AtEnd
    case AtEnd => AtEnd
  }

  /** Steps taken to get there. */
  function Steps(w: Where, n: nat, m: nat): nat {
    match w
    case AtStart => 0
    case Flying(laps, at) => 2 * (laps * n + at) + 1
    case Held(laps, at) => 2 * (laps * n + at)
    case AtEnd => 2 * ((m + 1) * n)
  }

  /** The only rank that can do anything. */
  function Active(w: Where, n: nat): nat
    requires n > 0
  {
    match w
    case Flying(_, at) => Next(at, n)
    case Held(_, at) => at
    case _ => 0
  }

  lemma NextRank(r: nat, n: nat)
    requires r < n
    ensures Next(r, n) == if r + 1 < n then r + 1 else 0
  {}

  lemma OnlyActiveSteps(s: State, n: nat, m: nat, w: Where, r: nat)
    requires m >= 1 && At(s, n, m, w) && CanStep(s, n, r)
    ensures !w.AtEnd? && r == Active(w, n)
  {}

  lemma ActiveCanStep(s: State, n: nat, m: nat, w: Where)
    requires m >= 1 && At(s, n, m, w) && !w.AtEnd?
    ensures CanStep(s, n, Active(w, n))
  {
    if w.Flying? { NextRank(w.at, n); }
  }

  lemma LapCount(laps: nat, n: nat)
    ensures (laps + 1) * n == laps * n + n
  {}

  lemma StepAdvances(s: State, n: nat, m: nat, w: Where, r: nat)
    requires m >= 1 && At(s, n, m, w) && CanStep(s, n, r)
    ensures At(Step(s, n, m, r), n, m, Advance(w, n, m))
    ensures Steps(Advance(w, n, m), n, m) == Steps(w, n, m) + 1
  {
    OnlyActiveSteps(s, n, m, w, r);
    match w
    case AtStart => NextRank(0, n);
    case Flying(laps, at) => NextRank(at, n); LapCount(laps, n);
    case Held(laps, at) => NextRank(at, n);
    case AtEnd =>
  }

  // ----- whole runs -----

  predicate IsRun(s: State, n: nat, m: nat, schedule: seq<nat>)
    requires Shaped(s, n)
    decreases |schedule|
  {
    schedule == [] || (CanStep(s, n, schedule[0]) && IsRun(Step(s, n, m, schedule[0]), n, m, schedule[1..]))
  }

  function After(s: State, n: nat, m: nat, schedule: seq<nat>): (t: State)
    requires Shaped(s, n) && IsRun(s, n, m, schedule)
    ensures Shaped(t, n)
    decreases |schedule|
  {
    if schedule == [] then s else After(Step(s, n, m, schedule[0]), n, m, schedule[1..])
  }

  lemma {:induction false} RunAdvances(s: State, n: nat, m: nat, w: Where, schedule: seq<nat>) returns (w': Where)
    requires m >= 1 && At(s, n, m, w) && IsRun(s, n, m, schedule)
    ensures At(After(s, n, m, schedule), n, m, w') && Steps(w', n, m) == Steps(w, n, m) + |schedule|
    decreases |schedule|
  {
    w' := w;
    if schedule != [] {
      StepAdvances(s, n, m, w, schedule[0]);
      w' := RunAdvances(Step(s, n, m, schedule[0]), n, m, Advance(w, n, m), schedule[1..]);
    }
  }

  /** All undelivered messages. */
  function InFlight(inbox: seq<seq<int>>): nat {
    if inbox == [] then 0 else InFlight(inbox[..|inbox| - 1]) + |inbox[|inbox| - 1]|
  }

  lemma {:induction false} InFlightAtMost(inbox: seq<seq<int>>, k: nat)
    requires forall r :: 0 <= r < |inbox| ==> |inbox[r]| == if r == k then 1 else 0
    ensures InFlight(inbox) == if k < |inbox| then 1 else 0
    decreases |inbox|
  {
    if inbox != [] { InFlightAtMost(inbox[..|inbox| - 1], k); }
  }

  lemma StepsBound(w: Where, n: nat, m: nat)
    requires n > 0 && Legal(w, n, m)
    ensures Steps(w, n, m) <= 2 * ((m + 1) * n) && (Steps(w, n, m) == 2 * ((m + 1) * n) <==> w.AtEnd?)
  {
    if w.Flying? || w.Held? {
      assert w.laps * n <= m * n;
      LapCount(m, n);
    } else {
      LapCount(m, n);
      assert m * n >= 0;
    }
  }

  predicate AllOut(s: State) {
    (forall r :: 0 <= r < |s.pc| ==> s.pc[r] == Exited) && (forall r :: 0 <= r < |s.inbox| ==> s.inbox[r] == [])
  }

  /** For every ring size and starting value: at most one message is ever under
      way, exactly one rank can move until the end, and every complete run takes
      (m + 1) * n deliveries and leaves every rank out of the loop and no
      message behind. */
  lemma RingTerminates(n: nat, m: nat, schedule: seq<nat>)
    requires n >= 1 && m >= 1 && IsRun(Start(n), n, m, schedule)
    ensures |schedule| <= 2 * ((m + 1) * n)
    ensures var s := After(Start(n), n, m, schedule);
      && InFlight(s.inbox) <= 1
      && (AllOut(s) <==> |schedule| == 2 * ((m + 1) * n))
      && (AllOut(s) ==> s.deliveries == (m + 1) * n)
      && (!AllOut(s) ==> exists r :: CanStep(s, n, r) && forall q :: CanStep(s, n, q) ==> q == r)
  {
    var w := RunAdvances(Start(n), n, m, AtStart, schedule);
    var s := After(Start(n), n, m, schedule);
    StepsBound(w, n, m);
    InFlightAtMost(s.inbox, if w.Flying? then Next(w.at, n) else n);
    if w.AtEnd? {
      assert AllOut(s);
    } else {
      ActiveCanStep(s, n, m, w);
      var a := Active(w, n);
      forall q | CanStep(s, n, q) ensures q == a { OnlyActiveSteps(s, n, m, w, q); }
      assert CanStep(s, n, a);
      assert !AllOut(s);
    }
  }

  // ----- one rank's loop -----

  /** What a rank sends for what it receives: everything up to the zero it passes on. */
  function Passed(rank: nat, received: seq<int>): seq<int> {
    if received == [] then []
    else
      var message := if rank == 0 then received[0] - 1 else received[0];
      [message] + (if message == 0 then [] else Passed(rank, received[1..]))
  }

  lemma PassedAt(rank: nat, received: seq<int>, k: nat)
    requires k < |received|
    ensures var message := if rank == 0 then received[k] - 1 else received[k];
      Passed(rank, received[k..]) == if message == 0 then [message] else [message] + Passed(rank, received[k + 1..])
  {
    assert received[k..][1..] == received[k + 1..];
  }

  lemma Regroup(a: seq<int>, x: int, b: seq<int>)
    ensures a + ([x] + b) == (a + [x]) + b
  {}

  /** What a rank must receive to leave its loop. */
  function Last(rank: nat): int { if rank == 0 then 1 else 0 }

  /** The receive loop of `main`, over the messages that arrive. */
  method Loop(rank: nat, m: int, received: seq<int>) returns (sent: seq<int>, finished: bool)
    ensures sent == AllSent(rank, m, received)
    ensures finished <==> Last(rank) in received
  {
    sent, finished := [], false;
    if rank == 0 { sent := [m]; }
    ghost var all := sent + Passed(rank, received);
    assert received[0..] == received;
    for k := 0 to |received|
      invariant sent + Passed(rank, received[k..]) == all && !finished
      invariant forall j :: 0 <= j < k ==> received[j] != Last(rank)
    {
      PassedAt(rank, received, k);
      var message := if rank == 0 then received[k] - 1 else received[k];
      Regroup(sent, message, Passed(rank, received[k + 1..]));
      sent := sent + [message];
      if message == 0 {
        finished := true;
        return;
      }
    }
  }

  // ----- the loop is what the ranks of a run do -----

  /** What every rank has sent, and what it has received in its loop. */
  datatype Log = Log(sent: seq<seq<int>>, received: seq<seq<int>>)

  predicate LogFits(log: Log, n: nat) {
    |log.sent| == |log.received| == n
  }

  function Logged(s: State, n: nat, m: nat, log: Log, r: nat): Log
    requires Shaped(s, n) && CanStep(s, n, r) && LogFits(log, n)
  {
    match s.pc[r]
    case Begin => log.(sent := log.sent[r := log.sent[r] + [m]])
    case Sending(message) => log.(sent := log.sent[r := log.sent[r] + [message]])
    case Receiving => log.(received := log.received[r := log.received[r] + [s.inbox[r][0]]])
    case _ => log
  }

  function LogAfter(s: State, n: nat, m: nat, log: Log, schedule: seq<nat>): (l: Log)
    requires Shaped(s, n) && IsRun(s, n, m, schedule) && LogFits(log, n)
    ensures LogFits(l, n)
    decreases |schedule|
  {
    if schedule == [] then log
    else LogAfter(Step(s, n, m, schedule[0]), n, m, Logged(s, n, m, log, schedule[0]), schedule[1..])
  }

  /** All that a rank sends for what it has received, as `Loop` has it. */
  function AllSent(rank: nat, m: int, received: seq<int>): seq<int> {
    (if rank == 0 then [m] else []) + Passed(rank, received)
  }

  /** A rank is somewhere in `Loop`: a message may still have to be passed on,
      and it is out of the loop exactly when the last one has been. */
  ghost predicate InLoop(pc: Pc, rank: nat, m: int, sent: seq<int>, received: seq<int>) {
    match pc
    case Begin => rank == 0 && sent == [] && received == []
    case Sending(message) =>
      && sent + [message] == AllSent(rank, m, received)
      && (Last(rank) in received <==> message == 0)
    case _ => sent == AllSent(rank, m, received) && (Last(rank) in received <==> pc != Receiving)
  }

  lemma {:induction false} PassedMore(rank: nat, received: seq<int>, x: int)
    requires Last(rank) !in received
    ensures Passed(rank, received + [x]) == Passed(rank, received) + [if rank == 0 then x - 1 else x]
  {
    if received != [] {
      PassedMore(rank, received[1..], x);
      assert (received + [x])[1..] == received[1..] + [x];
    }
  }

  lemma StepStaysInLoop(s: State, n: nat, m: nat, log: Log, r: nat, q: nat)
    requires Shaped(s, n) && CanStep(s, n, r) && LogFits(log, n) && q < n
    requires s.pc[r].Begin? ==> r == 0
    requires InLoop(s.pc[q], q, m, log.sent[q], log.received[q])
    ensures var log' := Logged(s, n, m, log, r);
      InLoop(Step(s, n, m, r).pc[q], q, m, log'.sent[q], log'.received[q])
  {
    if q == r && s.pc[r].Receiving? {
      var x := s.inbox[r][0];
      PassedMore(r, log.received[r], x);
      assert AllSent(r, m, log.received[r] + [x]) == AllSent(r, m, log.received[r]) + [if r == 0 then x - 1 else x];
    }
  }

  ghost predicate AllInLoop(s: State, n: nat, m: nat, log: Log) {
    Shaped(s, n) && LogFits(log, n) && forall q :: 0 <= q < n ==> InLoop(s.pc[q], q, m, log.sent[q], log.received[q])
  }

  lemma {:induction false} RunStaysInLoop(s: State, n: nat, m: nat, log: Log, schedule: seq<nat>)
    requires AllInLoop(s, n, m, log) && IsRun(s, n, m, schedule)
    ensures AllInLoop(After(s, n, m, schedule), n, m, LogAfter(s, n, m, log, schedule))
    decreases |schedule|
  {
    if schedule != [] {
      var s', log' := Step(s, n, m, schedule[0]), Logged(s, n, m, log, schedule[0]);
      forall q | 0 <= q < n
        ensures InLoop(s'.pc[q], q, m, log'.sent[q], log'.received[q])
      {
        StepStaysInLoop(s, n, m, log, schedule[0], q);
      }
      RunStaysInLoop(s', n, m, log', schedule[1..]);
    }
  }

  const NOTHING: seq<int> := []

  /** In every run every rank has sent what `Loop` sends for what the rank has
      received, but for a message in its hands, and has left the loop when `Loop`
      has finished. */
  lemma RunFollowsLoop(n: nat, m: nat, schedule: seq<nat>)
    requires n >= 1 && IsRun(Start(n), n, m, schedule)
    ensures var start := Log(seq(n, _ => NOTHING), seq(n, _ => NOTHING));
      AllInLoop(After(Start(n), n, m, schedule), n, m, LogAfter(Start(n), n, m, start, schedule))
  {
    RunStaysInLoop(Start(n), n, m, Log(seq(n, _ => NOTHING), seq(n, _ => NOTHING)), schedule);
  }
}
