/** Agreement on a context id (CID): what one process does in each stage of a
    round, and what a round achieves over all processes. */
module CidRounds {

  /** A process's communicator slots; a slot that is not in the map is NULL. */
  type Table = map<nat, nat>

  datatype Status = Running | Committed(cid: nat) | Exhausted

  /** One process and its allocation: `comm` is the parent communicator, used
      to hold a slot, `newcomm` the communicator the CID is for. */
  datatype Proc = Proc(table: Table, participates: bool, comm: nat, newcomm: nat, start: nat,
                       nextLocal: nat, nextCid: nat, flag: bool, iter: nat, status: Status)

  /** The lowest free slot from `from` on, or `max` if there is none below it. */
  function LowestFree(table: Table, from: nat, max: nat): (i: nat)
    ensures i < max ==> from <= i && i !in table
    ensures i >= max ==> i == max
    ensures forall j :: from <= j < i && j < max ==> j in table
    decreases max - from
  {
    if from >= max then max
    else if from !in table then from
    else LowestFree(table, from + 1, max)
  }

  // ----- the three stages at one process -----

  /** Reserve the lowest free slot and offer it. */
  function Reserve(p: Proc, max: nat): Proc {
    if !p.participates then p.(nextLocal := 0)
    else
      var i := LowestFree(p.table, p.start, max);
      if i < max then p.(table := p.table[i := p.comm], nextLocal := i)
      else p.(nextLocal := max, status := Exhausted)
  }

  /** Swap the reserved slot for the winning one, if that is free here. */
  function Check(p: Proc, winner: nat): Proc {
    var q := p.(nextCid := winner, iter := p.iter + 1);
    if !p.participates || winner == p.nextLocal then q.(flag := true)
    else
      var released := p.table - {p.nextLocal};
      if winner in released then q.(table := released, flag := false)
      else q.(table := released[winner := p.comm], flag := true)
  }

  /** Commit, or give the winning slot back and start behind it next time. */
  function Decide(p: Proc, agreed: bool, max: nat): Proc {
    if agreed then
      var cid := if p.participates then p.nextCid else LowestFree(p.table, p.start, max);
      p.(table := p.table[cid := p.newcomm], nextCid := cid, status := Committed(cid),
         nextLocal := if p.participates then p.nextLocal else cid)
    else if p.participates && p.flag then
      p.(table := p.table - {p.nextCid}, start := p.nextCid + 1, iter := p.iter + 1)
    else
      p.(iter := p.iter + 1)
  }

  // ----- the two collectives -----

  function MaxOf(values: seq<nat>): nat {
    if values == [] then 0
    else
      var rest := MaxOf(values[1..]);
      if values[0] < rest then rest else values[0]
  }

  lemma {:induction false} MaxOfBounds(values: seq<nat>)
    ensures forall v :: v in values ==> v <= MaxOf(values)
    ensures values != [] ==> MaxOf(values) in values
  {
    if values != [] {
      MaxOfBounds(values[1..]);
      assert values == [values[0]] + values[1..];
    }
  }

  function Offers(ps: seq<Proc>): seq<nat> {
    seq(|ps|, i requires 0 <= i < |ps| => ps[i].nextLocal)
  }

  predicate AllFlagged(ps: seq<Proc>) {
    forall i :: 0 <= i < |ps| ==> ps[i].flag
  }

  // ----- a round over all processes -----

  function ReserveAll(ps: seq<Proc>, max: nat): seq<Proc> {
    seq(|ps|, i requires 0 <= i < |ps| => Reserve(ps[i], max))
  }

  function CheckAll(ps: seq<Proc>, winner: nat): seq<Proc> {
    seq(|ps|, i requires 0 <= i < |ps| => Check(ps[i], winner))
  }

  function DecideAll(ps: seq<Proc>, agreed: bool, max: nat): seq<Proc> {
    seq(|ps|, i requires 0 <= i < |ps| => Decide(ps[i], agreed, max))
  }

  function Winner(ps: seq<Proc>, max: nat): nat {
    MaxOf(Offers(ReserveAll(ps, max)))
  }

  function Checked(ps: seq<Proc>, max: nat): seq<Proc> {
    CheckAll(ReserveAll(ps, max), Winner(ps, max))
  }

  function Round(ps: seq<Proc>, max: nat): seq<Proc> {
    DecideAll(Checked(ps, max), AllFlagged(Checked(ps, max)), max)
  }

  // ----- what a round needs and keeps -----

  /** Slot s could be the CID as far as p is concerned. */
  predicate Acceptable(p: Proc, s: nat) {
    p.participates ==> p.start <= s && s !in p.table
  }

  /** The slot every round moves towards: the lowest acceptable to all. */
  predicate Target(ps: seq<Proc>, max: nat, t: nat) {
    && t < max
    && (forall i :: 0 <= i < |ps| ==> Acceptable(ps[i], t))
    && (forall s :: 0 <= s < t ==> !AcceptableToAll(ps, s))
  }

  predicate AcceptableToAll(ps: seq<Proc>, s: nat) {
    forall i :: 0 <= i < |ps| ==> Acceptable(ps[i], s)
  }

  /** Non-participants will need a slot of their own at the end. */
  predicate Capacity(ps: seq<Proc>, max: nat) {
    forall i :: 0 <= i < |ps| && !ps[i].participates ==> LowestFree(ps[i].table, ps[i].start, max) < max
  }

  predicate Ready(ps: seq<Proc>, max: nat, t: nat) {
    && (exists i :: 0 <= i < |ps| && ps[i].participates)
    && (forall i :: 0 <= i < |ps| ==> ps[i].status == Running)
    && Target(ps, max, t) && Capacity(ps, max)
  }

  /** The part of a process that a rejected round must not change. */
  predicate SameTable(p: Proc, q: Proc) {
    p.table == q.table && p.participates == q.participates && p.comm == q.comm && p.newcomm == q.newcomm
  }

  // ----- one process through the first two stages -----

  lemma ReserveEffect(p: Proc, max: nat, t: nat)
    requires p.participates && p.start <= t < max && t !in p.table
    ensures var q := Reserve(p, max);
      && p.start <= q.nextLocal <= t && q.nextLocal !in p.table
      && q == p.(table := p.table[q.nextLocal := p.comm], nextLocal := q.nextLocal)
  {}

  /** After the check the winning slot is held exactly if it was free, and
      nothing else has changed hands. */
  lemma CheckEffect(p: Proc, max: nat, t: nat, winner: nat)
    requires p.participates && p.start <= t < max && t !in p.table
    ensures var q := Check(Reserve(p, max), winner);
      && (q.flag <==> winner !in p.table)
      && q.table == (if winner in p.table then p.table else p.table[winner := p.comm])
      && q.nextCid == winner && q.start == p.start && q.status == p.status
  {
    ReserveEffect(p, max, t);
    var r := Reserve(p, max);
    assert r.table - {r.nextLocal} == p.table;
  }

  /** A rejected round leaves the table as it found it. */
  lemma RollbackEffect(p: Proc, max: nat, t: nat, winner: nat)
    requires Acceptable(p, t) && t < max
    ensures var q := Decide(Check(Reserve(p, max), winner), false, max);
      && SameTable(p, q) && q.status == p.status
      && q.start == if p.participates && winner !in p.table then winner + 1 else p.start
  {
    if p.participates {
      CheckEffect(p, max, t, winner);
      if winner !in p.table { assert p.table[winner := p.comm] - {winner} == p.table; }
    }
  }

  /** The bookkeeping of a round at one process: a collective is counted for the
      check and one more for a retry, the CID decided on is recorded, and the
      communicators are not touched. */
  lemma RoundCounts(p: Proc, max: nat, winner: nat, agreed: bool)
    ensures var q := Decide(Check(Reserve(p, max), winner), agreed, max);
      && q.iter == p.iter + (if agreed then 1 else 2)
      && (agreed ==> q.status == Committed(q.nextCid))
      && (agreed && !p.participates ==> q.nextLocal == q.nextCid)
      && (!agreed || p.participates ==> q.nextCid == winner)
      && q.comm == p.comm && q.newcomm == p.newcomm && q.participates == p.participates
  {}

  // ----- the round over all processes -----

  predicate OfferFits(p: Proc, offer: nat, t: nat) {
    offer <= t && if p.participates then p.start <= offer && offer !in p.table else offer == 0
  }

  lemma OfferOne(p: Proc, max: nat, t: nat)
    requires Acceptable(p, t) && t < max
    ensures OfferFits(p, Reserve(p, max).nextLocal, t)
  {
    if p.participates { ReserveEffect(p, max, t); }
  }

  lemma OffersFit(ps: seq<Proc>, max: nat, t: nat)
    requires Ready(ps, max, t)
    ensures var offers := Offers(ReserveAll(ps, max));
      forall i :: 0 <= i < |ps| ==> OfferFits(ps[i], offers[i], t) && offers[i] <= Winner(ps, max)
  {
    var offers := Offers(ReserveAll(ps, max));
    MaxOfBounds(offers);
    forall i | 0 <= i < |ps| ensures OfferFits(ps[i], offers[i], t) && offers[i] <= Winner(ps, max) {
      assert Acceptable(ps[i], t);
      OfferOne(ps[i], max, t);
      assert offers[i] in offers;
    }
  }

  /** The participant that supplied the winner, or any if all offered 0. */
  lemma WinnerSupplier(ps: seq<Proc>, max: nat, t: nat) returns (supplier: nat)
    requires Ready(ps, max, t)
    ensures supplier < |ps| && ps[supplier].participates && OfferFits(ps[supplier], Winner(ps, max), t)
  {
    var offers := Offers(ReserveAll(ps, max));
    OffersFit(ps, max, t);
    MaxOfBounds(offers);
    var i :| 0 <= i < |ps| && ps[i].participates;
    hide Ready, Offers, ReserveAll;
    var w :| 0 <= w < |offers| && offers[w] == Winner(ps, max);
    supplier := if ps[w].participates then w else i;
    hide Winner;
    assert OfferFits(ps[w], offers[w], t) && OfferFits(ps[i], offers[i], t);
  }

  lemma WinnerBounds(ps: seq<Proc>, max: nat, t: nat)
    requires Ready(ps, max, t)
    ensures Winner(ps, max) <= t
    ensures forall i :: 0 <= i < |ps| && ps[i].participates ==> ps[i].start <= Winner(ps, max)
    ensures exists i :: 0 <= i < |ps| && ps[i].participates && Winner(ps, max) !in ps[i].table
  {
    var supplier := WinnerSupplier(ps, max, t);
    OffersFit(ps, max, t);
    hide Ready, Winner;
    var offers := Offers(ReserveAll(ps, max));
    forall i | 0 <= i < |ps| && ps[i].participates
      ensures ps[i].start <= Winner(ps, max)
    {
      assert OfferFits(ps[i], offers[i], t);
    }
    assert Winner(ps, max) !in ps[supplier].table;
  }

  lemma FlagsMeanFree(ps: seq<Proc>, max: nat, t: nat)
    requires Ready(ps, max, t)
    ensures AllFlagged(Checked(ps, max)) <==>
        forall i :: 0 <= i < |ps| && ps[i].participates ==> Winner(ps, max) !in ps[i].table
  {
    var w, cs := Winner(ps, max), Checked(ps, max);
    forall i | 0 <= i < |ps| ensures cs[i].flag <==> (ps[i].participates ==> w !in ps[i].table) {
      assert Acceptable(ps[i], t);
      if ps[i].participates { CheckEffect(ps[i], max, t, w); }
    }
  }

  /** A round is accepted exactly when its winner is the target. */
  lemma AcceptedIffTarget(ps: seq<Proc>, max: nat, t: nat)
    requires Ready(ps, max, t)
    ensures AllFlagged(Checked(ps, max)) <==> Winner(ps, max) == t
  {
    WinnerBounds(ps, max, t);
    FlagsMeanFree(ps, max, t);
    var w := Winner(ps, max);
    if AllFlagged(Checked(ps, max)) && w < t {
      forall i | 0 <= i < |ps| ensures Acceptable(ps[i], w) {}
      assert AcceptableToAll(ps, w);
    }
    if w == t {
      forall i | 0 <= i < |ps| && ps[i].participates ensures w !in ps[i].table { assert Acceptable(ps[i], t); }
    }
  }

  /** What process i looks like after an accepted round. */
  predicate Finished(p: Proc, q: Proc, t: nat, max: nat) {
    var cid := if p.participates then t else LowestFree(p.table, p.start, max);
    q.status == Committed(cid) && q.table == p.table[cid := p.newcomm] && q.participates == p.participates
  }

  lemma AcceptedOne(p: Proc, max: nat, t: nat)
    requires Acceptable(p, t) && t < max
    ensures Finished(p, Decide(Check(Reserve(p, max), t), true, max), t, max)
  {
    if p.participates { CheckEffect(p, max, t, t); }
  }

  lemma AcceptedRound(ps: seq<Proc>, max: nat, t: nat)
    requires Ready(ps, max, t) && Winner(ps, max) == t
    ensures forall i :: 0 <= i < |ps| ==> Finished(ps[i], Round(ps, max)[i], t, max)
  {
    AcceptedIffTarget(ps, max, t);
    forall i | 0 <= i < |ps| ensures Finished(ps[i], Round(ps, max)[i], t, max) {
      AcceptedOne(ps[i], max, t);
    }
  }

  /** What process p looks like after a round whose winner w was rejected. */
  predicate RolledBack(p: Proc, q: Proc, w: nat) {
    && SameTable(p, q) && q.status == p.status
    && q.start == if p.participates && w !in p.table then w + 1 else p.start
  }

  lemma RejectedEach(ps: seq<Proc>, max: nat, t: nat)
    requires Ready(ps, max, t) && Winner(ps, max) != t
    ensures forall i :: 0 <= i < |ps| ==> RolledBack(ps[i], Round(ps, max)[i], Winner(ps, max))
  {
    AcceptedIffTarget(ps, max, t);
    forall i | 0 <= i < |ps| ensures RolledBack(ps[i], Round(ps, max)[i], Winner(ps, max)) {
      assert Acceptable(ps[i], t);
      RollbackEffect(ps[i], max, t, Winner(ps, max));
    }
  }

  /** Moving starts forward, but not past the target, keeps the target. */
  lemma StillReady(ps: seq<Proc>, qs: seq<Proc>, max: nat, t: nat, w: nat)
    requires Ready(ps, max, t) && |qs| == |ps| && w < t
    requires forall i :: 0 <= i < |ps| ==> RolledBack(ps[i], qs[i], w)
    requires forall i :: 0 <= i < |ps| && ps[i].participates ==> ps[i].start <= w
    ensures Ready(qs, max, t)
  {
    var k :| 0 <= k < |ps| && ps[k].participates;
    assert qs[k].participates;
    forall i | 0 <= i < |qs| ensures Acceptable(qs[i], t) { assert Acceptable(ps[i], t); }
    forall s | 0 <= s < t ensures !AcceptableToAll(qs, s) {
      assert !AcceptableToAll(ps, s);
      var i :| 0 <= i < |ps| && !Acceptable(ps[i], s);
      assert !Acceptable(qs[i], s);
    }
    forall i | 0 <= i < |qs| && !qs[i].participates ensures LowestFree(qs[i].table, qs[i].start, max) < max {
      assert !ps[i].participates;
    }
  }

  /** A rejected round restores every table, keeps the target, and makes the
      participant that supplied the winner start behind it. */
  lemma RejectedRound(ps: seq<Proc>, max: nat, t: nat)
    requires Ready(ps, max, t) && Winner(ps, max) != t
    ensures Winner(ps, max) < t
    ensures forall i :: 0 <= i < |ps| ==> SameTable(ps[i], Round(ps, max)[i])
    ensures Ready(Round(ps, max), max, t)
    ensures exists i :: 0 <= i < |ps| && ps[i].participates && Round(ps, max)[i].start == Winner(ps, max) + 1
  {
    WinnerBounds(ps, max, t);
    RejectedEach(ps, max, t);
    StillReady(ps, Round(ps, max), max, t, Winner(ps, max));
    var k :| 0 <= k < |ps| && ps[k].participates && Winner(ps, max) !in ps[k].table;
    assert RolledBack(ps[k], Round(ps, max)[k], Winner(ps, max));
  }

  /** After a rejected round the next winner is larger: the measure of the retry loop. */
  lemma NextWinnerIsLarger(ps: seq<Proc>, max: nat, t: nat)
    requires Ready(ps, max, t) && Winner(ps, max) != t
    ensures Winner(ps, max) < Winner(Round(ps, max), max) <= t
  {
    RejectedEach(ps, max, t);
    RejectedRound(ps, max, t);
    WinnerBounds(Round(ps, max), max, t);
    var i :| 0 <= i < |ps| && ps[i].participates && Round(ps, max)[i].start == Winner(ps, max) + 1;
    assert RolledBack(ps[i], Round(ps, max)[i], Winner(ps, max));
  }

  predicate FreeAtAll(ps: seq<Proc>, s: nat) {
    forall i :: 0 <= i < |ps| && ps[i].participates ==> s !in ps[i].table
  }

  /** `start` is accurate: everything below it is taken. */
  predicate AccurateStarts(ps: seq<Proc>) {
    forall i, s :: 0 <= i < |ps| && ps[i].participates && 0 <= s < ps[i].start ==> s in ps[i].table
  }

  lemma AccurateAcceptance(ps: seq<Proc>, s: nat)
    requires AccurateStarts(ps)
    ensures AcceptableToAll(ps, s) <==> FreeAtAll(ps, s)
  {
    assert forall i :: 0 <= i < |ps| ==> (Acceptable(ps[i], s) <==> (ps[i].participates ==> s !in ps[i].table));
  }

  /** With accurate starts the target is the smallest slot free at all participants. */
  lemma AccurateTarget(ps: seq<Proc>, max: nat, t: nat)
    requires AccurateStarts(ps)
    ensures Target(ps, max, t) <==> t < max && FreeAtAll(ps, t) && forall s :: 0 <= s < t ==> !FreeAtAll(ps, s)
  {
    forall s: nat ensures AcceptableToAll(ps, s) <==> FreeAtAll(ps, s) { AccurateAcceptance(ps, s); }
    assert AcceptableToAll(ps, t) <==> forall i :: 0 <= i < |ps| ==> Acceptable(ps[i], t);
  }

  /** A common free slot guarantees that there is a target. */
  lemma {:induction false} TargetExists(ps: seq<Proc>, max: nat, s: nat) returns (t: nat)
    requires s < max && AcceptableToAll(ps, s)
    ensures t <= s && Target(ps, max, t)
  {
    if r :| 0 <= r < s && AcceptableToAll(ps, r) {
      t := TargetExists(ps, max, r);
    } else {
      t := s;
    }
  }
}
