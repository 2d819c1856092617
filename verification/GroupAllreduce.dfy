/** The allreduce over a group: reduce up a binary tree of ranks, broadcast
    back down, every rank at its own speed. */
module GroupAllreduce {

  /** An operator that the reduction may apply in any order and grouping. */
  ghost predicate Reducible<T(!new)>(op: (T, T) -> T) {
    && (forall a, b :: op(a, b) == op(b, a))
    && (forall a, b, c :: op(op(a, b), c) == op(a, op(b, c)))
  }

  /** The reference result: the inputs combined from left to right. */
  function Fold<T>(op: (T, T) -> T, values: seq<T>): T
    requires values != []
  {
    var n := |values| - 1;
    if n == 0 then values[0] else op(Fold(op, values[..n]), values[n])
  }

  function Parent(r: nat): nat
    requires r > 0
  {
    (r - 1) / 2
  }

  function Left(r: nat): nat { 2 * r + 1 }

  function Right(r: nat): nat { 2 * r + 2 }

  /** What rank r sends up: its input combined with its children's results. */
  function Subtree<T>(op: (T, T) -> T, inputs: seq<T>, r: nat): T
    requires r < |inputs|
    decreases |inputs| - r
  {
    var own := inputs[r];
    var withLeft := if Left(r) < |inputs| then op(Subtree(op, inputs, Left(r)), own) else own;
    if Right(r) < |inputs| then op(Subtree(op, inputs, Right(r)), withLeft) else withLeft
  }

  // ----- the tree combines every input exactly once -----

  lemma Associate<T(!new)>(op: (T, T) -> T, a: T, b: T, c: T)
    requires Reducible(op)
    ensures op(op(a, b), c) == op(a, op(b, c))
  {}

  lemma FoldSnoc<T>(op: (T, T) -> T, a: seq<T>, x: T)
    requires a != []
    ensures Fold(op, a + [x]) == op(Fold(op, a), x)
  {
    assert (a + [x])[..|a|] == a;
  }

  lemma {:induction false} FoldConcat<T(!new)>(op: (T, T) -> T, a: seq<T>, b: seq<T>)
    requires Reducible(op) && a != [] && b != []
    ensures Fold(op, a + b) == op(Fold(op, a), Fold(op, b))
    decreases |b|
  {
    var front, x := b[..|b| - 1], b[|b| - 1];
    assert b == front + [x] && a + b == (a + front) + [x];
    FoldSnoc(op, a + front, x);
    if front == [] {
      assert a + front == a && b == [x];
    } else {
      FoldSnoc(op, front, x);
      FoldConcat(op, a, front);
      Associate(op, Fold(op, a), Fold(op, front), x);
    }
  }

  lemma FoldSwap<T(!new)>(op: (T, T) -> T, a: seq<T>, b: seq<T>)
    requires Reducible(op) && a + b != []
    ensures Fold(op, a + b) == Fold(op, b + a)
  {
    if a == [] || b == [] {
      assert a + b == b + a;
    } else {
      FoldConcat(op, a, b);
      FoldConcat(op, b, a);
    }
  }

  function Results<T>(op: (T, T) -> T, inputs: seq<T>, from: nat, to: nat): seq<T>
    requires from <= to <= |inputs|
  {
    seq(to - from, k requires 0 <= k < to - from => Subtree(op, inputs, from + k))
  }

  function Frontier(i: nat, n: nat): nat {
    if 2 * i + 1 < n then 2 * i + 1 else n
  }

  /** The inputs of ranks below i, and the results of the subtrees that hang
      below them: the ranks i to 2i. */
  function Cut<T>(op: (T, T) -> T, inputs: seq<T>, i: nat): seq<T>
    requires i <= |inputs|
  {
    inputs[..i] + Results(op, inputs, i, Frontier(i, |inputs|))
  }

  function Rest<T>(op: (T, T) -> T, inputs: seq<T>, i: nat): seq<T>
    requires i < |inputs|
  {
    Results(op, inputs, i + 1, Frontier(i, |inputs|))
  }

  function Kids<T>(op: (T, T) -> T, inputs: seq<T>, i: nat): seq<T>
    requires i < |inputs|
  {
    Results(op, inputs, Frontier(i, |inputs|), Frontier(i + 1, |inputs|))
  }

  lemma ResultsConcat<T>(op: (T, T) -> T, inputs: seq<T>, a: nat, b: nat, c: nat)
    requires a <= b <= c <= |inputs|
    ensures Results(op, inputs, a, c) == Results(op, inputs, a, b) + Results(op, inputs, b, c)
  {}

  lemma CutShapes<T>(op: (T, T) -> T, inputs: seq<T>, i: nat)
    requires i < |inputs|
    ensures Cut(op, inputs, i) == inputs[..i] + ([Subtree(op, inputs, i)] + Rest(op, inputs, i))
    ensures Cut(op, inputs, i + 1) == inputs[..i] + ([inputs[i]] + (Rest(op, inputs, i) + Kids(op, inputs, i)))
  {
    ResultsConcat(op, inputs, i, i + 1, Frontier(i, |inputs|));
    ResultsConcat(op, inputs, i + 1, Frontier(i, |inputs|), Frontier(i + 1, |inputs|));
    assert Results(op, inputs, i, i + 1) == [Subtree(op, inputs, i)];
    assert inputs[..i + 1] == inputs[..i] + [inputs[i]];
  }

  /** A rank's children are the next ranks of the frontier. */
  lemma KidsShape<T>(op: (T, T) -> T, inputs: seq<T>, i: nat)
    requires i < |inputs|
    ensures Kids(op, inputs, i) ==
      if Right(i) < |inputs| then [Subtree(op, inputs, Left(i)), Subtree(op, inputs, Right(i))]
      else if Left(i) < |inputs| then [Subtree(op, inputs, Left(i))] else []
  {}

  lemma FoldTwo<T(!new)>(op: (T, T) -> T, a: T, b: T)
    requires Reducible(op)
    ensures Fold(op, [a, b]) == op(b, a)
  {
    assert [a, b][..1] == [a];
  }

  lemma FoldThree<T(!new)>(op: (T, T) -> T, a: T, b: T, c: T)
    requires Reducible(op)
    ensures Fold(op, [a, b, c]) == op(c, op(b, a))
  {
    assert [a, b, c][..2] == [a, b];
    FoldTwo(op, a, b);
  }

  lemma OneRank<T(!new)>(op: (T, T) -> T, inputs: seq<T>, i: nat)
    requires Reducible(op) && i < |inputs|
    ensures Subtree(op, inputs, i) == Fold(op, [inputs[i]] + Kids(op, inputs, i))
  {
    KidsShape(op, inputs, i);
    if Right(i) < |inputs| {
      FoldThree(op, inputs[i], Subtree(op, inputs, Left(i)), Subtree(op, inputs, Right(i)));
      assert [inputs[i]] + Kids(op, inputs, i) ==
          [inputs[i], Subtree(op, inputs, Left(i)), Subtree(op, inputs, Right(i))];
    } else if Left(i) < |inputs| {
      FoldTwo(op, inputs[i], Subtree(op, inputs, Left(i)));
      assert [inputs[i]] + Kids(op, inputs, i) == [inputs[i], Subtree(op, inputs, Left(i))];
    } else {
      assert [inputs[i]] + Kids(op, inputs, i) == [inputs[i]];
    }
  }

  /** Expanding rank i, the first of the frontier, into its input and children. */
  lemma ExpandRank<T(!new)>(op: (T, T) -> T, inputs: seq<T>, i: nat)
    requires Reducible(op) && i < |inputs|
    ensures Fold(op, Cut(op, inputs, i)) == Fold(op, Cut(op, inputs, i + 1))
  {
    OneRank(op, inputs, i);
    CutShapes(op, inputs, i);
    ReplaceHead(op, inputs[..i], Subtree(op, inputs, i), Rest(op, inputs, i), inputs[i], Kids(op, inputs, i));
  }

  lemma ReplaceHead<T(!new)>(op: (T, T) -> T, front: seq<T>, head: T, rest: seq<T>, own: T, kids: seq<T>)
    requires Reducible(op) && head == Fold(op, [own] + kids)
    ensures Fold(op, front + ([head] + rest)) == Fold(op, front + ([own] + (rest + kids)))
  {
    var a, b := [head] + rest, [own] + (rest + kids);
    assert Fold(op, a) == Fold(op, b) by {
      assert b == ([own] + rest) + kids;
      FoldSwap(op, [own] + rest, kids);
      assert kids + ([own] + rest) == (kids + [own]) + rest;
      FoldSwap(op, kids, [own]);
      if rest == [] {
        assert a == [head] && (kids + [own]) + rest == kids + [own];
      } else {
        FoldConcat(op, [head], rest);
        FoldConcat(op, kids + [own], rest);
      }
    }
    if front != [] {
      FoldConcat(op, front, a);
      FoldConcat(op, front, b);
    } else {
      assert front + a == a && front + b == b;
    }
  }

  lemma {:induction false} CutsAgree<T(!new)>(op: (T, T) -> T, inputs: seq<T>, i: nat)
    requires Reducible(op) && i <= |inputs| && inputs != []
    ensures Fold(op, Cut(op, inputs, 0)) == Fold(op, Cut(op, inputs, i))
  {
    if i > 0 {
      CutsAgree(op, inputs, i - 1);
      ExpandRank(op, inputs, i - 1);
    }
  }

  /** The root's result is the fold of all inputs, for every group size. */
  lemma TreeIsFold<T(!new)>(op: (T, T) -> T, inputs: seq<T>)
    requires Reducible(op) && inputs != []
    ensures Subtree(op, inputs, 0) == Fold(op, inputs)
  {
    var n := |inputs|;
    CutsAgree(op, inputs, n);
    assert Cut(op, inputs, 0) == [Subtree(op, inputs, 0)];
    assert Cut(op, inputs, n) == inputs;
  }

  // ----- the ranks as communicating processes -----

  datatype Mail<T> = Empty | Full(value: T)

  datatype Phase = Reducing | AwaitParent | Done

  /** `up[r]` is the message from rank r to its parent, `down[r]` the one from
      its parent to r. */
  datatype Group<T> = Group(phase: seq<Phase>, out: seq<T>, up: seq<Mail<T>>, down: seq<Mail<T>>)

  predicate Shaped<T>(g: Group<T>, n: nat) {
    |g.phase| == |g.out| == |g.up| == |g.down| == n
  }

  function Begin<T>(inputs: seq<T>): Group<T> {
    Group(seq(|inputs|, _ => Reducing), inputs, seq(|inputs|, _ => Empty), seq(|inputs|, _ => Empty))
  }

  /** Both children's messages have arrived. */
  predicate CanReduce<T>(g: Group<T>, n: nat, r: nat)
    requires Shaped(g, n)
  {
    && r < n && g.phase[r].Reducing?
    && (Left(r) < n ==> g.up[Left(r)].Full?) && (Right(r) < n ==> g.up[Right(r)].Full?)
  }

  predicate CanReceive<T>(g: Group<T>, n: nat, r: nat)
    requires Shaped(g, n)
  {
    r < n && g.phase[r].AwaitParent? && g.down[r].Full?
  }

  predicate CanStep<T>(g: Group<T>, n: nat, r: nat)
    requires Shaped(g, n)
  {
    CanReduce(g, n, r) || CanReceive(g, n, r)
  }

  /** Combining the received values into the own one, left child first. */
  function Combined<T>(op: (T, T) -> T, own: T, kids: seq<T>): T {
    if kids == [] then own else Combined(op, op(kids[0], own), kids[1..])
  }

  function Received<T>(g: Group<T>, n: nat, r: nat): seq<T>
    requires Shaped(g, n) && CanReduce(g, n, r)
  {
    (if Left(r) < n then [g.up[Left(r)].value] else []) + (if Right(r) < n then [g.up[Right(r)].value] else [])
  }

  /** What rank q's mailboxes and phase become when rank r takes a step that
      leaves it with `value`, `finished` telling whether that is the result. */
  function StepTo<T>(g: Group<T>, n: nat, r: nat, value: T, finished: bool): Group<T>
    requires Shaped(g, n) && r < n
  {
    Group(
      g.phase[r := if finished then Done else AwaitParent],
      g.out[r := value],
      seq(n, q requires 0 <= q < n =>
        if q == r then (if finished then Empty else Full(value))
        else if q > 0 && Parent(q) == r then Empty
        else g.up[q]),
      seq(n, q requires 0 <= q < n =>
        if q == r then Empty else if q > 0 && Parent(q) == r && finished then Full(value) else g.down[q]))
  }

  /** The root broadcasts as soon as it has reduced; the others send up and wait. */
  function Step<T>(op: (T, T) -> T, g: Group<T>, n: nat, r: nat): Group<T>
    requires Shaped(g, n) && CanStep(g, n, r)
  {
    if CanReduce(g, n, r) then StepTo(g, n, r, Combined(op, g.out[r], Received(g, n, r)), r == 0)
    else StepTo(g, n, r, g.down[r].value, true)
  }

  // ----- the invariant -----

  /** Each rank's state is determined by its own phase and its parent's. */
  ghost predicate RankOk<T>(op: (T, T) -> T, inputs: seq<T>, g: Group<T>, r: nat)
    requires Shaped(g, |inputs|) && r < |inputs|
  {
    var total := Subtree(op, inputs, 0);
    match g.phase[r]
    case Reducing =>
      && g.out[r] == inputs[r] && g.up[r] == Empty && g.down[r] == Empty
      && (r > 0 ==> g.phase[Parent(r)].Reducing?)
    case AwaitParent =>
      && r > 0 && g.out[r] == Subtree(op, inputs, r)
      && g.up[r] == (if g.phase[Parent(r)].Reducing? then Full(Subtree(op, inputs, r)) else Empty)
      && g.down[r] == (if g.phase[Parent(r)].Done? then Full(total) else Empty)
    case Done =>
      && g.out[r] == total && g.up[r] == Empty && g.down[r] == Empty
      && (r > 0 ==> g.phase[Parent(r)].Done?)
  }

  ghost predicate Inv<T>(op: (T, T) -> T, inputs: seq<T>, g: Group<T>) {
    Shaped(g, |inputs|) && forall r :: 0 <= r < |inputs| ==> RankOk(op, inputs, g, r)
  }

  lemma CombinedOne<T>(op: (T, T) -> T, own: T, l: T)
    ensures Combined(op, own, [l]) == op(l, own)
  {
    assert [l][1..] == [];
  }

  lemma CombinedTwo<T>(op: (T, T) -> T, own: T, l: T, r: T)
    ensures Combined(op, own, [l] + [r]) == op(r, op(l, own))
  {
    assert ([l] + [r])[1..] == [r];
    CombinedOne(op, op(l, own), r);
  }

  lemma CombinedIsSubtree<T>(op: (T, T) -> T, inputs: seq<T>, g: Group<T>, r: nat)
    requires Inv(op, inputs, g) && CanReduce(g, |inputs|, r)
    ensures Combined(op, g.out[r], Received(g, |inputs|, r)) == Subtree(op, inputs, r)
  {
    assert RankOk(op, inputs, g, r);
    if Right(r) < |inputs| {
      assert RankOk(op, inputs, g, Left(r)) && RankOk(op, inputs, g, Right(r));
      CombinedTwo(op, inputs[r], Subtree(op, inputs, Left(r)), Subtree(op, inputs, Right(r)));
    } else if Left(r) < |inputs| {
      assert RankOk(op, inputs, g, Left(r));
      CombinedOne(op, inputs[r], Subtree(op, inputs, Left(r)));
      assert Received(g, |inputs|, r) == [Subtree(op, inputs, Left(r))];
    }
  }

  lemma StepKeepsRank<T>(op: (T, T) -> T, inputs: seq<T>, g: Group<T>, r: nat, q: nat)
    requires Inv(op, inputs, g) && CanStep(g, |inputs|, r) && q < |inputs|
    ensures RankOk(op, inputs, Step(op, g, |inputs|, r), q)
  {
    assert RankOk(op, inputs, g, r) && RankOk(op, inputs, g, q);
    if CanReduce(g, |inputs|, r) { CombinedIsSubtree(op, inputs, g, r); }
  }

  lemma StepKeepsInv<T>(op: (T, T) -> T, inputs: seq<T>, g: Group<T>, r: nat)
    requires Inv(op, inputs, g) && CanStep(g, |inputs|, r)
    ensures Inv(op, inputs, Step(op, g, |inputs|, r))
  {
    forall q | 0 <= q < |inputs| ensures RankOk(op, inputs, Step(op, g, |inputs|, r), q) {
      StepKeepsRank(op, inputs, g, r, q);
    }
  }

  // ----- progress: some rank can move until all are done -----

  predicate AllDone<T>(g: Group<T>) {
    forall r :: 0 <= r < |g.phase| ==> g.phase[r].Done?
  }

  /** The deepest rank that still reduces has all it waits for. */
  lemma {:induction false} DeepestReducing<T>(op: (T, T) -> T, inputs: seq<T>, g: Group<T>, r: nat) returns (d: nat)
    requires Inv(op, inputs, g) && r < |inputs| && g.phase[r].Reducing?
    ensures CanReduce(g, |inputs|, d)
    decreases |inputs| - r
  {
    if Left(r) < |inputs| && g.phase[Left(r)].Reducing? {
      d := DeepestReducing(op, inputs, g, Left(r));
    } else if Right(r) < |inputs| && g.phase[Right(r)].Reducing? {
      d := DeepestReducing(op, inputs, g, Right(r));
    } else {
      d := r;
      if Left(r) < |inputs| { assert RankOk(op, inputs, g, Left(r)); }
      if Right(r) < |inputs| { assert RankOk(op, inputs, g, Right(r)); }
    }
  }

  /** Above a rank that waits, the highest one that waits has its message. */
  lemma {:induction false} HighestWaiting<T>(op: (T, T) -> T, inputs: seq<T>, g: Group<T>, r: nat) returns (h: nat)
    requires Inv(op, inputs, g) && r < |inputs| && g.phase[r].AwaitParent?
    requires forall q :: 0 <= q < |inputs| ==> !g.phase[q].Reducing?
    ensures CanReceive(g, |inputs|, h)
  {
    assert RankOk(op, inputs, g, r);
    if g.phase[Parent(r)].Done? {
      h := r;
    } else {
      h := HighestWaiting(op, inputs, g, Parent(r));
    }
  }

  lemma Progress<T>(op: (T, T) -> T, inputs: seq<T>, g: Group<T>) returns (r: nat)
    requires Inv(op, inputs, g) && !AllDone(g)
    ensures CanStep(g, |inputs|, r)
  {
    if q :| 0 <= q < |inputs| && g.phase[q].Reducing? {
      r := DeepestReducing(op, inputs, g, q);
    } else {
      var q :| 0 <= q < |inputs| && !g.phase[q].Done?;
      r := HighestWaiting(op, inputs, g, q);
    }
  }

  // ----- whole runs -----

  predicate IsRun<T>(op: (T, T) -> T, g: Group<T>, n: nat, schedule: seq<nat>)
    requires Shaped(g, n)
    decreases |schedule|
  {
    schedule == [] || (CanStep(g, n, schedule[0]) && IsRun(op, Step(op, g, n, schedule[0]), n, schedule[1..]))
  }

  function After<T>(op: (T, T) -> T, g: Group<T>, n: nat, schedule: seq<nat>): (h: Group<T>)
    requires Shaped(g, n) && IsRun(op, g, n, schedule)
    ensures Shaped(h, n)
    decreases |schedule|
  {
    if schedule == [] then g else After(op, Step(op, g, n, schedule[0]), n, schedule[1..])
  }

  /** Steps still to be taken: two for a reducing rank, one for the root or a waiting rank. */
  function Remaining(phase: seq<Phase>): nat {
    if phase == [] then 0
    else
      var n := |phase| - 1;
      Remaining(phase[..n])
      + (match phase[n] case Reducing => (if n == 0 then 1 else 2) case AwaitParent => 1 case Done => 0)
  }

  lemma {:induction false} RemainingUpdate(phase: seq<Phase>, r: nat, p: Phase)
    requires r < |phase|
    requires (phase[r].Reducing? && p == (if r == 0 then Done else AwaitParent)) || (phase[r].AwaitParent? && p.Done?)
    ensures Remaining(phase[r := p]) == Remaining(phase) - 1
    decreases |phase|
  {
    var n := |phase| - 1;
    if r < n {
      RemainingUpdate(phase[..n], r, p);
      assert phase[r := p][..n] == phase[..n][r := p];
    } else {
      assert phase[r := p][..n] == phase[..n];
    }
  }

  lemma {:induction false} RemainingZero(phase: seq<Phase>)
    ensures Remaining(phase) == 0 <==> forall r :: 0 <= r < |phase| ==> phase[r].Done?
    decreases |phase|
  {
    if phase != [] {
      var n := |phase| - 1;
      RemainingZero(phase[..n]);
      assert forall r :: 0 <= r < n ==> phase[..n][r] == phase[r];
    }
  }

  lemma {:induction false} RemainingStart(n: nat)
    requires n > 0
    ensures Remaining(seq(n, _ => Reducing)) == 2 * n - 1
  {
    assert seq(n, _ => Reducing)[..n - 1] == seq(n - 1, _ => Reducing);
    if n > 1 { RemainingStart(n - 1); }
  }

  lemma {:induction false} RunKeepsInv<T>(op: (T, T) -> T, inputs: seq<T>, g: Group<T>, schedule: seq<nat>)
    requires Inv(op, inputs, g) && IsRun(op, g, |inputs|, schedule)
    ensures Inv(op, inputs, After(op, g, |inputs|, schedule))
    ensures Remaining(After(op, g, |inputs|, schedule).phase) == Remaining(g.phase) - |schedule|
    decreases |schedule|
  {
    if schedule != [] {
      var r := schedule[0];
      StepKeepsInv(op, inputs, g, r);
      RemainingUpdate(g.phase, r, Step(op, g, |inputs|, r).phase[r]);
      RunKeepsInv(op, inputs, Step(op, g, |inputs|, r), schedule[1..]);
    }
  }

  /** Everyone has the result and no message is under way. */
  ghost predicate Settled<T>(g: Group<T>, n: nat, result: T) {
    Shaped(g, n) && forall r :: 0 <= r < n ==> g.phase[r].Done? && g.out[r] == result && g.up[r] == g.down[r] == Empty
  }

  lemma SettledWhenDone<T>(op: (T, T) -> T, inputs: seq<T>, g: Group<T>)
    requires Inv(op, inputs, g) && inputs != []
    ensures Settled(g, |inputs|, Subtree(op, inputs, 0)) <==> Remaining(g.phase) == 0
  {
    RemainingZero(g.phase);
    if Remaining(g.phase) == 0 {
      forall r | 0 <= r < |inputs| ensures g.out[r] == Subtree(op, inputs, 0) && g.up[r] == g.down[r] == Empty {
        assert RankOk(op, inputs, g, r);
      }
    } else {
      var r :| 0 <= r < |g.phase| && !g.phase[r].Done?;
      assert !g.phase[r].Done?;
    }
  }

  lemma BeginOk<T>(op: (T, T) -> T, inputs: seq<T>)
    requires inputs != []
    ensures Inv(op, inputs, Begin(inputs)) && Remaining(Begin(inputs).phase) == 2 * |inputs| - 1
  {
    RemainingStart(|inputs|);
  }

  lemma AllreduceRun<T>(op: (T, T) -> T, inputs: seq<T>, schedule: seq<nat>)
    requires inputs != [] && IsRun(op, Begin(inputs), |inputs|, schedule)
    ensures |schedule| <= 2 * |inputs| - 1
    ensures var g := After(op, Begin(inputs), |inputs|, schedule);
      && (Settled(g, |inputs|, Subtree(op, inputs, 0)) <==> |schedule| == 2 * |inputs| - 1)
      && (|schedule| < 2 * |inputs| - 1 ==> exists r :: CanStep(g, |inputs|, r))
  {
    BeginOk(op, inputs);
    RunKeepsInv(op, inputs, Begin(inputs), schedule);
    var g := After(op, Begin(inputs), |inputs|, schedule);
    SettledWhenDone(op, inputs, g);
    if |schedule| < 2 * |inputs| - 1 {
      RemainingZero(g.phase);
      var r := Progress(op, inputs, g);
    }
  }

  /** For every group size, all inputs and every interleaving: a run never gets
      stuck early, has at most 2n - 1 steps, and after that many every rank
      holds the fold of all inputs with no message left undelivered. */
  lemma AllreduceCorrect<T(!new)>(op: (T, T) -> T, inputs: seq<T>, schedule: seq<nat>)
    requires Reducible(op) && inputs != [] && IsRun(op, Begin(inputs), |inputs|, schedule)
    ensures |schedule| <= 2 * |inputs| - 1
    ensures var g := After(op, Begin(inputs), |inputs|, schedule);
      && (Settled(g, |inputs|, Fold(op, inputs)) <==> |schedule| == 2 * |inputs| - 1)
      && (|schedule| < 2 * |inputs| - 1 ==> exists r :: CanStep(g, |inputs|, r))
  {
    AllreduceRun(op, inputs, schedule);
    TreeIsFold(op, inputs);
  }

  // ----- one rank's buffers -----

  /** The reduction loop of the receive callback: at most two children, whose
      values lie one after the other in the temporary buffer. */
  class Node<T> {
    const rank: nat
    const size: nat
    var outbuf: T

    constructor (rank: nat, size: nat, inbuf: T)
      ensures this.rank == rank && this.size == size && outbuf == inbuf
    {
      this.rank, this.size, outbuf := rank, size, inbuf;
    }

    predicate HasPeer(i: nat) {
      (if i == 0 then 2 * rank + 1 else 2 * rank + 2) < size
    }

    method ReceiveComplete(op: (T, T) -> T, tmp: seq<T>)
      requires |tmp| == (if Left(rank) < size then 1 else 0) + (if Right(rank) < size then 1 else 0)
      modifies this
      ensures outbuf == Combined(op, old(outbuf), tmp)
    {
      var next := 0;
      for i := 0 to 2
        invariant next == (if i > 0 && HasPeer(0) then 1 else 0) + (if i > 1 && HasPeer(1) then 1 else 0)
        invariant Combined(op, outbuf, tmp[next..]) == Combined(op, old(outbuf), tmp)
      {
        if HasPeer(i) {
          outbuf := op(tmp[next], outbuf);
          assert tmp[next..][1..] == tmp[next + 1..];
          next := next + 1;
        }
      }
      assert tmp[next..] == [];
    }
  }
}
