/** The pairwise connectivity test: every pair of ranks exchanges one message
    each way, with sends that block until they are received. */
module Connectivity {
  import opened Totals

  datatype Op = Send(peer: nat) | Recv(peer: nat)

  /** The k-th partner of a rank: all the others, in increasing order. */
  function Partner(rank: nat, k: nat): nat { if k < rank then k else k + 1 }

  /** Where a partner comes in that order. */
  function Turn(rank: nat, peer: nat): nat
    requires peer != rank
  {
    if peer < rank then peer else peer - 1
  }

  /** The m-th operation of a rank: receive from and reply to lower ranks, send
      to and receive from higher ones. */
  function OpAt(rank: nat, m: nat): Op {
    var peer := Partner(rank, m / 2);
    if (peer < rank) == (m % 2 == 0) then Recv(peer) else Send(peer)
  }

  function Length(np: nat): nat
    requires np > 0
  {
    2 * (np - 1)
  }

  function Program(rank: nat, np: nat): seq<Op>
    requires rank < np
  {
    seq(Length(np), m requires m >= 0 => OpAt(rank, m))
  }

  /** The program's two nested loops issue exactly that sequence. */
  method IssueOperations(rank: nat, np: nat) returns (ops: seq<Op>)
    requires rank < np
    ensures ops == Program(rank, np)
  {
    ops := [];
    for i := 0 to np
      invariant |ops| == (if i <= rank then 2 * i else Length(np))
      invariant forall m :: 0 <= m < |ops| ==> ops[m] == OpAt(rank, m)
    {
      if rank == i {
        for j := i + 1 to np
          invariant |ops| == 2 * (j - 1)
          invariant forall m :: 0 <= m < |ops| ==> ops[m] == OpAt(rank, m)
        {
          assert OpAt(rank, |ops|) == Send(j) && OpAt(rank, |ops| + 1) == Recv(j);
          ops := ops + [Send(j)];
          ops := ops + [Recv(j)];
        }
      } else if rank > i {
        assert OpAt(rank, |ops|) == Recv(i) && OpAt(rank, |ops| + 1) == Send(i);
        ops := ops + [Recv(i)];
        ops := ops + [Send(i)];
      }
    }
  }

  // ----- all ranks together -----

  /** How far each rank has got, and what has been delivered (from, to). */
  datatype State = State(pos: seq<nat>, delivered: multiset<(nat, nat)>)

  function Start(np: nat): State {
    State(seq(np, _ => 0), multiset{})
  }

  predicate Waits(s: State, rank: nat, op: Op) {
    rank < |s.pos| && s.pos[rank] < Length(|s.pos|) && OpAt(rank, s.pos[rank]) == op
  }

  /** A synchronous send completes together with the receive that matches it. */
  predicate CanMeet(s: State, from: nat, to: nat) {
    from != to && Waits(s, from, Send(to)) && Waits(s, to, Recv(from))
  }

  function Meet(s: State, from: nat, to: nat): State
    requires CanMeet(s, from, to)
  {
    State(s.pos[from := s.pos[from] + 1][to := s.pos[to] + 1], s.delivered + multiset{(from, to)})
  }

  // ----- the invariant: both ends of a pair agree on how far they are -----

  /** How many of its two operations with `peer` a rank at `pos` has completed. */
  function Exchanged(rank: nat, peer: nat, pos: nat): nat
    requires peer != rank
  {
    if pos <= 2 * Turn(rank, peer) then 0 else if pos == 2 * Turn(rank, peer) + 1 then 1 else 2
  }

  function Progress(s: State, i: nat, j: nat): nat
    requires i < |s.pos| && i != j
  {
    Exchanged(i, j, s.pos[i])
  }

  ghost predicate PairOk(s: State, i: nat, j: nat)
    requires i < j < |s.pos|
  {
    && Progress(s, i, j) == Progress(s, j, i)
    && s.delivered[(i, j)] == (if Progress(s, i, j) >= 1 then 1 else 0)
    && s.delivered[(j, i)] == (if Progress(s, i, j) == 2 then 1 else 0)
  }

  ghost predicate Inv(s: State) {
    && |s.pos| > 0
    && (forall r :: 0 <= r < |s.pos| ==> s.pos[r] <= Length(|s.pos|))
    && (forall i, j :: 0 <= i < j < |s.pos| ==> PairOk(s, i, j))
  }

  lemma MeetKeepsPair(s: State, from: nat, to: nat, i: nat, j: nat)
    requires Inv(s) && CanMeet(s, from, to) && i < j < |s.pos|
    ensures PairOk(Meet(s, from, to), i, j)
  {
    assert PairOk(s, i, j);
    assert Turn(from, to) == s.pos[from] / 2 && Turn(to, from) == s.pos[to] / 2;
  }

  lemma MeetKeepsInv(s: State, from: nat, to: nat)
    requires Inv(s) && CanMeet(s, from, to)
    ensures Inv(Meet(s, from, to))
  {
    forall i, j | 0 <= i < j < |s.pos| ensures PairOk(Meet(s, from, to), i, j) { MeetKeepsPair(s, from, to, i, j); }
  }

  // ----- the least unfinished pair can always go on -----

  predicate Unfinished(s: State, i: nat, j: nat) {
    i < j < |s.pos| && Progress(s, i, j) < 2
  }

  predicate Before(a: nat, b: nat, i: nat, j: nat) { a < i || (a == i && b < j) }

  predicate Least(s: State, i: nat, j: nat) {
    && Unfinished(s, i, j)
    && (forall a, b :: 0 <= a < |s.pos| && 0 <= b < |s.pos| && Before(a, b, i, j) ==> !Unfinished(s, a, b))
  }

  /** A rank whose earlier partners are done is at its turn with the next one. */
  lemma AtTurn(s: State, r: nat, peer: nat)
    requires r < |s.pos| && peer < |s.pos| && peer != r
    requires Progress(s, r, peer) < 2
    requires forall k :: 0 <= k < Turn(r, peer) ==> Progress(s, r, Partner(r, k)) == 2
    ensures s.pos[r] == 2 * Turn(r, peer) + Progress(s, r, peer)
  {
    if Turn(r, peer) > 0 {
      assert Progress(s, r, Partner(r, Turn(r, peer) - 1)) == 2;
      assert Turn(r, Partner(r, Turn(r, peer) - 1)) == Turn(r, peer) - 1;
    }
  }

  lemma LeastCanMeet(s: State, i: nat, j: nat)
    requires Inv(s) && Least(s, i, j)
    ensures if Progress(s, i, j) == 0 then CanMeet(s, i, j) else CanMeet(s, j, i)
  {
    assert PairOk(s, i, j);
    forall k | 0 <= k < Turn(i, j) ensures Progress(s, i, Partner(i, k)) == 2 {
      var p := Partner(i, k);
      if p < i {
        assert PairOk(s, p, i);
        assert !Unfinished(s, p, i);
      } else {
        assert !Unfinished(s, i, p);
      }
    }
    forall k | 0 <= k < Turn(j, i) ensures Progress(s, j, Partner(j, k)) == 2 {
      assert PairOk(s, k, j);
      assert !Unfinished(s, k, j);
    }
    AtTurn(s, i, j);
    AtTurn(s, j, i);
  }

  lemma {:induction false} FindLeast(s: State, a: nat, b: nat) returns (i: nat, j: nat)
    requires Unfinished(s, a, b)
    ensures Least(s, i, j)
    decreases a, b
  {
    if x, y :| 0 <= x < |s.pos| && 0 <= y < |s.pos| && Before(x, y, a, b) && Unfinished(s, x, y) {
      i, j := FindLeast(s, x, y);
    } else {
      i, j := a, b;
    }
  }

  // ----- whole runs -----

  predicate IsRun(s: State, meetings: seq<(nat, nat)>)
    decreases |meetings|
  {
    meetings == [] ||
    (CanMeet(s, meetings[0].0, meetings[0].1) && IsRun(Meet(s, meetings[0].0, meetings[0].1), meetings[1..]))
  }

  function After(s: State, meetings: seq<(nat, nat)>): State
    requires IsRun(s, meetings)
    decreases |meetings|
  {
    if meetings == [] then s else After(Meet(s, meetings[0].0, meetings[0].1), meetings[1..])
  }

  predicate Finished(s: State)
    requires |s.pos| > 0
  {
    forall r :: 0 <= r < |s.pos| ==> s.pos[r] == Length(|s.pos|)
  }

  lemma MeetCounts(s: State, from: nat, to: nat)
    requires CanMeet(s, from, to)
    ensures Total(Meet(s, from, to).pos) == Total(s.pos) + 2
  {
    TotalStep(s.pos, from);
    TotalStep(s.pos[from := s.pos[from] + 1], to);
  }

  lemma {:induction false} RunKeepsInv(s: State, meetings: seq<(nat, nat)>)
    requires Inv(s) && IsRun(s, meetings)
    ensures Inv(After(s, meetings)) && |After(s, meetings).pos| == |s.pos|
    ensures Total(After(s, meetings).pos) == Total(s.pos) + 2 * |meetings|
    decreases |meetings|
  {
    if meetings != [] {
      MeetKeepsInv(s, meetings[0].0, meetings[0].1);
      MeetCounts(s, meetings[0].0, meetings[0].1);
      RunKeepsInv(Meet(s, meetings[0].0, meetings[0].1), meetings[1..]);
    }
  }

  /** A rank that has not finished has an unfinished pair. */
  lemma SomePairUnfinished(s: State, r: nat) returns (i: nat, j: nat)
    requires Inv(s) && r < |s.pos| && s.pos[r] < Length(|s.pos|)
    ensures Unfinished(s, i, j)
  {
    var peer := Partner(r, s.pos[r] / 2);
    assert Turn(r, peer) == s.pos[r] / 2;
    i, j := if r < peer then r else peer, if r < peer then peer else r;
    assert PairOk(s, i, j);
  }

  lemma StartOk(np: nat)
    requires np > 0
    ensures Inv(Start(np)) && Total(Start(np).pos) == 0
  {
    TotalZero(np);
    forall i, j | 0 <= i < j < np ensures PairOk(Start(np), i, j) {}
  }

  lemma UnfinishedGoesOn(s: State)
    requires Inv(s) && !Finished(s)
    ensures exists i, j :: Least(s, i, j) && (CanMeet(s, i, j) || CanMeet(s, j, i))
  {
    var r :| 0 <= r < |s.pos| && s.pos[r] != Length(|s.pos|);
    var a, b := SomePairUnfinished(s, r);
    var i, j := FindLeast(s, a, b);
    LeastCanMeet(s, i, j);
  }

  /** Every ordered pair has delivered exactly one message. */
  predicate AllDelivered(s: State) {
    forall i, j :: 0 <= i < |s.pos| && 0 <= j < |s.pos| && i != j ==> s.delivered[(i, j)] == 1
  }

  lemma FinishedDelivered(s: State)
    requires Inv(s) && Finished(s)
    ensures AllDelivered(s)
  {
    forall i, j | 0 <= i < |s.pos| && 0 <= j < |s.pos| && i != j ensures s.delivered[(i, j)] == 1 {
      assert if i < j then PairOk(s, i, j) else PairOk(s, j, i);
    }
  }

  lemma CountsMeetings(np: nat, total: nat, meetings: nat)
    requires np > 0 && total == 2 * meetings
    ensures total <= np * Length(np) <==> meetings <= np * (np - 1)
    ensures total == np * Length(np) <==> meetings == np * (np - 1)
  {
    assert np * Length(np) == 2 * (np * (np - 1));
  }

  /** Whatever meetings have taken place: an unfinished system has a least
      unfinished pair, and it can meet; a run has at most np (np - 1) meetings,
      and after that many every ordered pair has delivered exactly one message. */
  lemma NeverDeadlocks(np: nat, meetings: seq<(nat, nat)>)
    requires np > 0 && IsRun(Start(np), meetings)
    ensures |After(Start(np), meetings).pos| == np
    ensures |meetings| <= np * (np - 1)
    ensures var s := After(Start(np), meetings);
      && (Finished(s) <==> |meetings| == np * (np - 1))
      && (!Finished(s) ==> exists i, j :: Least(s, i, j) && (CanMeet(s, i, j) || CanMeet(s, j, i)))
      && (Finished(s) ==> AllDelivered(s))
  {
    StartOk(np);
    RunKeepsInv(Start(np), meetings);
    var s := After(Start(np), meetings);
    TotalBound(s.pos, Length(np));
    CountsMeetings(np, Total(s.pos), |meetings|);
    if Finished(s) {
      FinishedDelivered(s);
    } else {
      UnfinishedGoesOn(s);
    }
  }
}
