/** The scheduler of non-blocking communicator operations: each request has a
    schedule of callbacks, each behind the sub-requests it waits for. */
module RequestScheduler {
  import opened Options

  datatype Status = Success | BadParam

  const MAX_SUBREQ := 2

  datatype Item = Item(subreqs: seq<nat>, callback: Option<nat>)

  /** All that a callback does: a return code, items it tries to append to its
      own request, and the schedules of the requests it starts. */
  datatype Effect = Effect(rc: int, appended: seq<Item>, started: seq<seq<Item>>)

  datatype State = Idle | Active | Complete(success: bool)
  datatype Request = Request(schedule: seq<Item>, state: State)

  /** What has happened to a request: the items ever accepted, how many of them
      have run, the sub-requests freed, and how often it was completed. */
  datatype History = History(appended: seq<Item>, ran: nat, freed: seq<nat>, completions: nat)

  // ----- one visit to one request -----

  /** The sub-requests still to be waited for: complete ones go from the end. */
  function Waiting(subreqs: seq<nat>, complete: nat -> bool): (r: seq<nat>)
    ensures r <= subreqs
    ensures forall k :: |r| <= k < |subreqs| ==> complete(subreqs[k])
    ensures r != [] ==> !complete(r[|r| - 1])
  {
    if subreqs == [] || !complete(subreqs[|subreqs| - 1]) then subreqs
    else Waiting(subreqs[..|subreqs| - 1], complete)
  }

  function Backwards(s: seq<nat>): (r: seq<nat>)
    ensures |r| == |s| && forall k :: 0 <= k < |s| ==> r[k] == s[|s| - 1 - k]
  {
    if s == [] then [] else [s[|s| - 1]] + Backwards(s[..|s| - 1])
  }

  /** Items with too many sub-requests are refused. */
  function Accepted(items: seq<Item>): (r: seq<Item>)
    ensures forall k :: 0 <= k < |r| ==> |r[k].subreqs| <= MAX_SUBREQ
  {
    if items == [] then []
    else
      var n := |items| - 1;
      Accepted(items[..n]) + (if |items[n].subreqs| <= MAX_SUBREQ then [items[n]] else [])
  }

  function EffectOf(item: Item, effect: nat -> Effect): Effect {
    if item.callback.Some? then effect(item.callback.value) else Effect(0, [], [])
  }

  /** A request and its history after one visit, the return code of the
      callback if one was run, and the schedules it started. */
  datatype Visit = Visit(request: Request, history: History, rc: int, started: seq<seq<Item>>)

  /** The first item: sub-requests that are complete are freed, and once none
      is left the callback runs. */
  function Fronted(q: Request, h: History, complete: nat -> bool, effect: nat -> Effect): Visit {
    if q.schedule == [] then Visit(q, h, 0, [])
    else
      var item := q.schedule[0];
      var waiting := Waiting(item.subreqs, complete);
      var freed := h.freed + Backwards(item.subreqs[|waiting|..]);
      if waiting != [] then
        Visit(q.(schedule := [item.(subreqs := waiting)] + q.schedule[1..]), h.(freed := freed), 0, [])
      else
        var e := EffectOf(item, effect);
        var more := Accepted(e.appended);
        Visit(q.(schedule := q.schedule[1..] + more), History(h.appended + more, h.ran + 1, freed, h.completions), e.rc,
              e.started)
  }

  /** A request with nothing left completes with the code of its last callback. */
  function Visited(q: Request, h: History, complete: nat -> bool, effect: nat -> Effect): Visit {
    var v := Fronted(q, h, complete, effect);
    if v.request.schedule != [] then v else Completed(v, v.rc == 0)
  }

  function Completed(v: Visit, success: bool): Visit {
    v.(request := v.request.(state := Complete(success)),
       history := v.history.(completions := v.history.completions + 1))
  }

  // ----- what every visit keeps -----

  /** The sub-requests of the items, each item's from its last to its first. */
  function FreedBy(items: seq<Item>): seq<nat> {
    if items == [] then [] else FreedBy(items[..|items| - 1]) + Backwards(items[|items| - 1].subreqs)
  }

  /** The schedule is what is left of the items appended, except that the first
      may have lost sub-requests; exactly the lost ones and those of the items
      that have run have been freed, each once and in order. */
  ghost predicate Sound(q: Request, h: History) {
    && h.ran <= |h.appended| && |q.schedule| == |h.appended| - h.ran
    && (forall k :: 0 <= k < |h.appended| ==> |h.appended[k].subreqs| <= MAX_SUBREQ)
    && (q.schedule == [] ==> h.freed == FreedBy(h.appended))
    && (q.schedule != [] ==> FrontOf(q.schedule[0], h) && q.schedule[1..] == h.appended[h.ran + 1..])
    && h.completions == (if q.state.Complete? then 1 else 0)
    && (q.state.Complete? ==> q.schedule == [])
  }

  ghost predicate FrontOf(front: Item, h: History)
    requires h.ran < |h.appended|
  {
    var item := h.appended[h.ran];
    && front.callback == item.callback && front.subreqs <= item.subreqs
    && h.freed == FreedBy(h.appended[..h.ran]) + Backwards(item.subreqs[|front.subreqs|..])
  }

  lemma BackwardsSplit(s: seq<nat>, t: seq<nat>)
    ensures Backwards(s + t) == Backwards(t) + Backwards(s)
  {
    var l, r := Backwards(s + t), Backwards(t) + Backwards(s);
    forall k | 0 <= k < |l|
      ensures l[k] == r[k]
    {
    }
  }

  /** Freeing some more of the front item's sub-requests. */
  lemma FreedMore(freed: seq<nat>, base: seq<nat>, all: seq<nat>, was: nat, now: nat)
    requires now <= was <= |all| && freed == base + Backwards(all[was..])
    ensures freed + Backwards(all[..was][now..]) == base + Backwards(all[now..])
  {
    assert all[now..] == all[..was][now..] + all[was..];
    BackwardsSplit(all[..was][now..], all[was..]);
  }

  lemma FrontFreed(front: Item, h: History, waiting: seq<nat>)
    requires h.ran < |h.appended| && FrontOf(front, h) && waiting <= front.subreqs
    ensures FrontOf(front.(subreqs := waiting), h.(freed := h.freed + Backwards(front.subreqs[|waiting|..])))
  {
    var all := h.appended[h.ran].subreqs;
    assert front.subreqs == all[..|front.subreqs|];
    FreedMore(h.freed, FreedBy(h.appended[..h.ran]), all, |front.subreqs|, |waiting|);
  }

  lemma FreedByNext(items: seq<Item>, n: nat)
    requires n < |items|
    ensures FreedBy(items[..n + 1]) == FreedBy(items[..n]) + Backwards(items[n].subreqs)
  {
    assert items[..n + 1][..n] == items[..n];
  }

  lemma WaitingSound(q: Request, h: History, waiting: seq<nat>)
    requires Sound(q, h) && q.schedule != [] && waiting <= q.schedule[0].subreqs
    ensures Sound(q.(schedule := [q.schedule[0].(subreqs := waiting)] + q.schedule[1..]),
                  h.(freed := h.freed + Backwards(q.schedule[0].subreqs[|waiting|..])))
  {
    FrontFreed(q.schedule[0], h, waiting);
    var s := [q.schedule[0].(subreqs := waiting)] + q.schedule[1..];
    assert s[1..] == q.schedule[1..];
  }

  /** The front item has run: the next one is untouched so far. */
  lemma RanFront(h: History, freed: seq<nat>, more: seq<Item>, completions: nat)
    requires h.ran < |h.appended| && freed == FreedBy(h.appended[..h.ran]) + Backwards(h.appended[h.ran].subreqs)
    ensures var h' := History(h.appended + more, h.ran + 1, freed, completions);
      && freed == FreedBy(h'.appended[..h.ran + 1])
      && (h'.ran < |h'.appended| ==> FrontOf(h'.appended[h'.ran], h'))
  {
    var h' := History(h.appended + more, h.ran + 1, freed, completions);
    FreedByNext(h.appended, h.ran);
    assert h'.appended[..h.ran + 1] == h.appended[..h.ran + 1];
    if h'.ran < |h'.appended| {
      var item := h'.appended[h'.ran];
      assert freed + Backwards(item.subreqs[|item.subreqs|..]) == freed;
    }
  }

  lemma FrontRan(front: Item, h: History, freed: seq<nat>)
    requires h.ran < |h.appended| && FrontOf(front, h) && freed == h.freed + Backwards(front.subreqs)
    ensures freed == FreedBy(h.appended[..h.ran]) + Backwards(h.appended[h.ran].subreqs)
  {
    FrontFreed(front, h, []);
    assert front.subreqs[0..] == front.subreqs;
    assert h.appended[h.ran].subreqs[0..] == h.appended[h.ran].subreqs;
  }

  /** The front item is gone and the callback has appended `more`. */
  lemma RanSound(q: Request, h: History, freed: seq<nat>, more: seq<Item>)
    requires Sound(q, h) && q.schedule != [] && q.state.Active? && freed == h.freed + Backwards(q.schedule[0].subreqs)
    requires forall k :: 0 <= k < |more| ==> |more[k].subreqs| <= MAX_SUBREQ
    ensures Sound(q.(schedule := q.schedule[1..] + more), History(h.appended + more, h.ran + 1, freed, h.completions))
  {
    var rest := q.schedule[1..] + more;
    FrontRan(q.schedule[0], h, freed);
    RanFront(h, freed, more, h.completions);
    hide FrontOf;
    assert rest == (h.appended + more)[h.ran + 1..];
    if rest == [] {
      assert (h.appended + more)[..h.ran + 1] == h.appended + more;
    } else {
      assert rest[1..] == (h.appended + more)[h.ran + 2..];
    }
  }

  lemma RanOnly(q: Request, h: History, freed: seq<nat>)
    requires Sound(q, h) && q.schedule != [] && q.state.Active? && freed == h.freed + Backwards(q.schedule[0].subreqs)
    ensures Sound(q.(schedule := q.schedule[1..]), History(h.appended, h.ran + 1, freed, h.completions))
  {
    RanSound(q, h, freed, []);
    assert q.schedule[1..] + [] == q.schedule[1..] && h.appended + [] == h.appended;
  }

  lemma CompletedSound(q: Request, h: History, success: bool)
    requires Sound(q, h) && q.state.Active? && q.schedule == []
    ensures Sound(q.(state := Complete(success)), h.(completions := h.completions + 1))
  {}

  lemma FrontedSound(q: Request, h: History, complete: nat -> bool, effect: nat -> Effect)
    requires Sound(q, h) && q.state.Active?
    ensures var v := Fronted(q, h, complete, effect); Sound(v.request, v.history) && v.request.state.Active?
  {
    if q.schedule != [] {
      var item := q.schedule[0];
      var waiting := Waiting(item.subreqs, complete);
      if waiting == [] {
        assert item.subreqs[0..] == item.subreqs;
        RanSound(q, h, h.freed + Backwards(item.subreqs), Accepted(EffectOf(item, effect).appended));
      } else {
        WaitingSound(q, h, waiting);
      }
    }
  }

  /** Every visit keeps the request and its history in step. */
  lemma VisitedSound(q: Request, h: History, complete: nat -> bool, effect: nat -> Effect)
    requires Sound(q, h) && q.state.Active?
    ensures var v := Visited(q, h, complete, effect); Sound(v.request, v.history) && !v.request.state.Idle?
  {
    FrontedSound(q, h, complete, effect);
  }

  // ----- what the history says -----

  lemma FreedByHas(items: seq<Item>, n: nat, s: nat)
    requires n < |items| && s in items[n].subreqs
    ensures s in FreedBy(items)
  {
    var m := |items| - 1;
    if n < m {
      FreedByHas(items[..m], n, s);
    } else {
      var k :| 0 <= k < |items[m].subreqs| && items[m].subreqs[k] == s;
      assert Backwards(items[m].subreqs)[|items[m].subreqs| - 1 - k] == s;
    }
  }

  lemma FreedIfRan(q: Request, h: History, n: nat, s: nat)
    requires Sound(q, h) && n < h.ran && s in h.appended[n].subreqs
    ensures s in h.freed
  {
    if q.schedule == [] {
      FreedByHas(h.appended, n, s);
    } else {
      FreedByHas(h.appended[..h.ran], n, s);
    }
  }

  predicate AllComplete(subreqs: seq<nat>, complete: nat -> bool) {
    forall s :: s in subreqs ==> complete(s)
  }

  /** A visit frees only sub-requests that are complete, runs at most the next
      item, and runs it exactly if all its remaining sub-requests are complete;
      the request completes exactly if nothing is left then, with the code of
      that item's callback. */
  lemma VisitInOrder(q: Request, h: History, complete: nat -> bool, effect: nat -> Effect)
    requires Sound(q, h) && q.state.Active?
    ensures var v := Visited(q, h, complete, effect);
      && h.appended <= v.history.appended && h.freed <= v.history.freed
      && (forall k :: |h.freed| <= k < |v.history.freed| ==> complete(v.history.freed[k]))
      && v.history.ran == h.ran + (if q.schedule != [] && AllComplete(q.schedule[0].subreqs, complete) then 1 else 0)
      && (v.request.state.Complete? <==> v.history.ran == |v.history.appended|)
      && (v.request.state.Complete? ==>
            (v.request.state.success <==>
              v.history.ran == h.ran || q.schedule[0].callback.None? || effect(q.schedule[0].callback.value).rc == 0))
      && (v.history.ran == h.ran ==> v.history.appended == h.appended && v.started == [])
  {
    if q.schedule != [] {
      var item := q.schedule[0];
      var waiting := Waiting(item.subreqs, complete);
      if waiting == [] {
        forall s | s in item.subreqs
          ensures complete(s)
        {
          var k :| 0 <= k < |item.subreqs| && item.subreqs[k] == s;
        }
      } else {
        assert waiting[|waiting| - 1] in item.subreqs;
      }
    }
    VisitedSound(q, h, complete, effect);
  }

  /** The visit that runs a callback: what the callback appended stands at the
      end of the schedule, and with nothing left the request has succeeded
      exactly if the callback returned 0. */
  lemma VisitRuns(q: Request, h: History, complete: nat -> bool, effect: nat -> Effect, subreqs: seq<nat>, c: nat)
    requires q.state.Active? && q.schedule != [] && q.schedule[0] == Item(subreqs, Some(c))
    requires forall s :: s in subreqs ==> complete(s)
    ensures var (v, e) := (Visited(q, h, complete, effect), effect(c));
      && v.request.schedule == q.schedule[1..] + Accepted(e.appended)
      && v.history.appended == h.appended + Accepted(e.appended)
      && v.started == e.started
      && v.request.state == (if v.request.schedule != [] then Active else Complete(e.rc == 0))
  {
    NothingWaits(subreqs, complete);
  }

  /** An item without a callback only waits. */
  lemma VisitSkips(q: Request, h: History, complete: nat -> bool, effect: nat -> Effect, subreqs: seq<nat>)
    requires q.state.Active? && q.schedule != [] && q.schedule[0] == Item(subreqs, None)
    requires forall s :: s in subreqs ==> complete(s)
    ensures var v := Visited(q, h, complete, effect);
      && v.request.schedule == q.schedule[1..] && v.history.appended == h.appended && v.started == []
      && v.request.state == (if v.request.schedule != [] then Active else Complete(true))
  {
    NothingWaits(subreqs, complete);
  }

  /** While a sub-request is incomplete nothing runs, and the item keeps its
      sub-requests up to the last incomplete one. */
  lemma VisitWaits(q: Request, h: History, complete: nat -> bool, effect: nat -> Effect, k: nat)
    requires q.state.Active? && q.schedule != [] && k < |q.schedule[0].subreqs| && !complete(q.schedule[0].subreqs[k])
    requires forall j :: k < j < |q.schedule[0].subreqs| ==> complete(q.schedule[0].subreqs[j])
    ensures var (v, front) := (Visited(q, h, complete, effect), q.schedule[0]);
      && v.request == Request([Item(front.subreqs[..k + 1], front.callback)] + q.schedule[1..], Active)
      && v.history.appended == h.appended && v.history.ran == h.ran && v.started == []
  {
    var subreqs := q.schedule[0].subreqs;
    var waiting := Waiting(subreqs, complete);
    var last := |waiting| - 1;
    assert last >= 0 ==> waiting[last] == subreqs[last];
    assert waiting == subreqs[..k + 1];
  }

  lemma {:induction false} NothingWaits(subreqs: seq<nat>, complete: nat -> bool)
    requires forall s :: s in subreqs ==> complete(s)
    ensures Waiting(subreqs, complete) == []
    decreases |subreqs|
  {
    if subreqs != [] { NothingWaits(subreqs[..|subreqs| - 1], complete); }
  }

  /** `Accepted` goes item by item and leaves out those with three or more sub-requests. */
  lemma {:induction false} AcceptedEach(items: seq<Item>, more: seq<Item>, x: Item)
    ensures Accepted(items + more) == Accepted(items) + Accepted(more)
    ensures Accepted([x]) == if |x.subreqs| <= 2 then [x] else []
    decreases |more|
  {
    assert [x][..0] == [];
    if more == [] {
      assert items + more == items;
    } else {
      var n := |more| - 1;
      AcceptedEach(items, more[..n], x);
      assert (items + more)[..|items| + n] == items + more[..n];
    }
  }

  // ----- a request over any number of passes -----

  /** What a pass finds complete, and what a callback run in it does. */
  datatype Pass = Pass(complete: nat -> bool, effect: nat -> Effect)

  /** The visits of successive passes, as long as the request is active. */
  function After(q: Request, h: History, passes: seq<Pass>): (Request, History) {
    if passes == [] then (q, h)
    else
      var n := |passes| - 1;
      var (q', h') := After(q, h, passes[..n]);
      if q'.state.Active? then
        var v := Visited(q', h', passes[n].complete, passes[n].effect);
        (v.request, v.history)
      else (q', h')
  }

  /** The front item has nothing left to wait for. */
  predicate Ready(q: Request, pass: Pass) {
    q.state.Active? && q.schedule != [] && AllComplete(q.schedule[0].subreqs, pass.complete)
  }

  function ReadyPasses(q: Request, h: History, passes: seq<Pass>): nat {
    if passes == [] then 0
    else
      var n := |passes| - 1;
      ReadyPasses(q, h, passes[..n]) + if Ready(After(q, h, passes[..n]).0, passes[n]) then 1 else 0
  }

  /** Whatever completes when and whatever callbacks append: exactly one item
      runs in every pass that finds the front item ready, and the request has
      finished exactly when there is no item left to run. */
  lemma {:induction false} RunsWhenReady(q: Request, h: History, passes: seq<Pass>)
    requires Sound(q, h) && q.state.Active?
    ensures var (q', h') := After(q, h, passes);
      && Sound(q', h') && !q'.state.Idle?
      && h'.ran == h.ran + ReadyPasses(q, h, passes)
      && (passes != [] ==> (q'.state.Complete? <==> h'.ran == |h'.appended|))
    ensures h.appended <= After(q, h, passes).1.appended
  {
    if passes != [] {
      var n := |passes| - 1;
      RunsWhenReady(q, h, passes[..n]);
      var (q', h') := After(q, h, passes[..n]);
      if q'.state.Active? {
        VisitInOrder(q', h', passes[n].complete, passes[n].effect);
        VisitedSound(q', h', passes[n].complete, passes[n].effect);
      }
    }
  }

  /** No item has run before every one of its sub-requests was complete: each
      was found complete in one of the passes, and freed in it. */
  lemma {:induction false} FreedWereComplete(q: Request, h: History, passes: seq<Pass>, k: nat)
    requires Sound(q, h) && q.state.Active? && |h.freed| <= k < |After(q, h, passes).1.freed|
    ensures exists n :: 0 <= n < |passes| && passes[n].complete(After(q, h, passes).1.freed[k])
  {
    if passes != [] {
      var n := |passes| - 1;
      RunsWhenReady(q, h, passes[..n]);
      var (q', h') := After(q, h, passes[..n]);
      if q'.state.Active? { VisitInOrder(q', h', passes[n].complete, passes[n].effect); }
      if k < |h'.freed| {
        FreedWereComplete(q, h, passes[..n], k);
        var j :| 0 <= j < n && passes[..n][j].complete(h'.freed[k]);
        assert passes[j].complete(h'.freed[k]);
      } else {
        assert passes[n].complete(After(q, h, passes).1.freed[k]);
      }
    }
  }

  lemma RanAfterSubrequests(q: Request, h: History, passes: seq<Pass>, i: nat, s: nat)
    requires Sound(q, h) && q.state.Active? && h.freed == []
    requires i < After(q, h, passes).1.ran && i < |After(q, h, passes).1.appended|
    requires s in After(q, h, passes).1.appended[i].subreqs
    ensures s in After(q, h, passes).1.freed
    ensures exists n :: 0 <= n < |passes| && passes[n].complete(s)
  {
    RunsWhenReady(q, h, passes);
    var (q', h') := After(q, h, passes);
    FreedIfRan(q', h', i, s);
    var k :| 0 <= k < |h'.freed| && h'.freed[k] == s;
    FreedWereComplete(q, h, passes, k);
  }

  /** An item that is at the front in a pass, and had been appended k passes
      earlier, is ready in that pass. */
  ghost predicate Timely(q: Request, h: History, passes: seq<Pass>, k: nat) {
    forall t :: 0 <= t && t + k < |passes| ==> TimelyAt(q, h, passes, k, t)
  }

  predicate TimelyAt(q: Request, h: History, passes: seq<Pass>, k: nat, t: nat)
    requires t + k < |passes|
  {
    var (q', h') := After(q, h, passes[..t + k]);
    q'.state.Active? && q'.schedule != [] && h'.ran < |After(q, h, passes[..t]).1.appended| ==> Ready(q', passes[t + k])
  }

  /** A request that is active after t passes had something to do before. */
  lemma {:induction false} ActiveBefore(q: Request, h: History, passes: seq<Pass>, t: nat, u: nat)
    requires Sound(q, h) && q.state.Active? && u < t <= |passes| && After(q, h, passes[..t]).0.state.Active?
    ensures After(q, h, passes[..u]).0.state.Active? && After(q, h, passes[..u]).0.schedule != []
    decreases t
  {
    assert passes[..t][..t - 1] == passes[..t - 1];
    var (q', h') := After(q, h, passes[..t - 1]);
    if u < t - 1 { ActiveBefore(q, h, passes, t - 1, u); }
  }

  lemma {:induction false} ReadyMonotone(q: Request, h: History, passes: seq<Pass>, u: nat, t: nat)
    requires u <= t <= |passes|
    ensures ReadyPasses(q, h, passes[..u]) <= ReadyPasses(q, h, passes[..t])
    decreases t
  {
    if u < t {
      assert passes[..t][..t - 1] == passes[..t - 1];
      ReadyMonotone(q, h, passes, u, t - 1);
    }
  }

  /** One pass in any k + 1 is ready. */
  lemma ReadyInWindow(q: Request, h: History, passes: seq<Pass>, k: nat, t: nat)
    requires Sound(q, h) && q.state.Active? && Timely(q, h, passes, k)
    requires t + k < |passes| && After(q, h, passes[..t + k + 1]).0.state.Active?
    ensures ReadyPasses(q, h, passes[..t + k + 1]) > ReadyPasses(q, h, passes[..t])
  {
    var u := t + k;
    assert passes[..u + 1][..u] == passes[..u];
    ReadyMonotone(q, h, passes, t, u);
    ReadyMonotone(q, h, passes, u, u + 1);
    ActiveBefore(q, h, passes, u + 1, t);
    ActiveBefore(q, h, passes, u + 1, u);
    RunsWhenReady(q, h, passes[..t]);
    RunsWhenReady(q, h, passes[..u]);
    if ReadyPasses(q, h, passes[..u]) == ReadyPasses(q, h, passes[..t]) { assert TimelyAt(q, h, passes, k, t); }
  }

  lemma CountLeast(a: int, b: int, k: nat)
    requires a <= b
    ensures (a + 1) * (k + 1) == a * (k + 1) + (k + 1) <= (b + 1) * (k + 1)
  {}

  lemma {:induction false} EnoughReady(q: Request, h: History, passes: seq<Pass>, k: nat, t: nat)
    requires Sound(q, h) && q.state.Active? && Timely(q, h, passes, k)
    requires t <= |passes| && After(q, h, passes[..t]).0.state.Active?
    ensures t < (ReadyPasses(q, h, passes[..t]) + 1) * (k + 1)
    decreases t
  {
    hide Sound, After, ReadyPasses, Timely;
    var r := ReadyPasses(q, h, passes[..t]);
    if t <= k {
      CountLeast(0, r, k);
    } else {
      var u := t - k - 1;
      ActiveBefore(q, h, passes, t, u);
      EnoughReady(q, h, passes, k, u);
      ReadyInWindow(q, h, passes, k, u);
      CountLeast(ReadyPasses(q, h, passes[..u]) + 1, r, k);
    }
  }

  lemma ProductLess(n: nat, a: nat, b: int, c: nat)
    requires n < a * c && a <= b
    ensures n < b * c
  {}

  lemma StillToRun(q: Request, h: History, passes: seq<Pass>, k: nat)
    requires Sound(q, h) && q.state.Active? && passes != [] && Timely(q, h, passes, k)
    requires After(q, h, passes).0.state.Active?
    ensures |passes| < (|After(q, h, passes).1.appended| - h.ran) * (k + 1)
  {
    hide Timely, After, ReadyPasses;
    assert passes[..|passes|] == passes;
    RunsWhenReady(q, h, passes);
    EnoughReady(q, h, passes, k, |passes|);
    ProductLess(|passes|, ReadyPasses(q, h, passes) + 1, |After(q, h, passes).1.appended| - h.ran, k + 1);
  }

  /** If every sub-request is complete k passes after its item was appended at
      the latest, a request has finished, once, after k + 1 passes an item,
      whatever its callbacks append on the way. */
  lemma FinishesInTime(q: Request, h: History, passes: seq<Pass>, k: nat)
    requires Sound(q, h) && q.state.Active? && passes != [] && Timely(q, h, passes, k)
    requires (|After(q, h, passes).1.appended| - h.ran) * (k + 1) <= |passes|
    ensures var (q', h') := After(q, h, passes); q'.state.Complete? && h'.ran == |h'.appended| && h'.completions == 1
  {
    RunsWhenReady(q, h, passes);
    if After(q, h, passes).0.state.Active? { StillToRun(q, h, passes, k); }
  }

  // ----- the scheduler -----

  const FRESH := Request([], Idle)
  const NO_HISTORY := History([], 0, [], 0)

  ghost predicate Distinct(s: seq<nat>) {
    forall i, j :: 0 <= i < j < |s| ==> s[i] != s[j]
  }

  /** Requests 0..nextId exist; the active ones are listed once each. */
  ghost predicate Consistent(requests: map<nat, Request>, history: map<nat, History>, active: seq<nat>, nextId: nat) {
    && Distinct(active)
    && (forall r: nat :: r in requests <==> r < nextId) && history.Keys == requests.Keys
    && (forall r: nat :: r in requests ==> Sound(requests[r], history[r]))
    && forall r: nat :: r in active <==> r in requests && requests[r].state.Active?
  }

  lemma ConsistentUpdate(requests: map<nat, Request>, history: map<nat, History>, active: seq<nat>, nextId: nat, r: nat,
                         q: Request, h: History)
    requires Consistent(requests, history, active, nextId) && r in requests && Sound(q, h)
    requires q.state.Active? <==> requests[r].state.Active?
    ensures Consistent(requests[r := q], history[r := h], active, nextId)
  {
    hide Sound;
  }

  lemma ConsistentNew(requests: map<nat, Request>, history: map<nat, History>, active: seq<nat>, nextId: nat)
    requires Consistent(requests, history, active, nextId)
    ensures Consistent(requests[nextId := FRESH], history[nextId := NO_HISTORY], active, nextId + 1)
  {}

  lemma DistinctSnoc(s: seq<nat>, r: nat)
    requires Distinct(s) && r !in s
    ensures Distinct(s + [r]) && forall x: nat :: x in s + [r] <==> x in s || x == r
  {}

  lemma ConsistentStart(requests: map<nat, Request>, history: map<nat, History>, active: seq<nat>, nextId: nat, r: nat)
    requires Consistent(requests, history, active, nextId) && r in requests && requests[r].state.Idle?
    ensures Consistent(requests[r := requests[r].(state := Active)], history, active + [r], nextId)
  {
    var requests' := requests[r := requests[r].(state := Active)];
    assert Sound(requests[r], history[r]) && Sound(requests'[r], history[r]);
    hide Sound;
    DistinctSnoc(active, r);
    hide Distinct;
    forall x: nat | x in requests'
      ensures Sound(requests'[x], history[x])
    {
      assert x == r || requests'[x] == requests[x];
    }
    forall x: nat
      ensures x in active + [r] <==> x in requests' && requests'[x].state.Active?
    {
      assert x == r || (x in requests' <==> x in requests);
    }
  }

  function Ids(from: nat, n: nat): (r: seq<nat>)
    ensures |r| == n && forall k :: 0 <= k < n ==> r[k] == from + k
  {
    if n == 0 then [] else Ids(from, n - 1) + [from + n - 1]
  }

  /** Request r exists, is active and has these items, as far as they are accepted. */
  ghost predicate HasStarted(requests: map<nat, Request>, history: map<nat, History>, r: nat, items: seq<Item>) {
    && r in requests && requests[r] == Request(Accepted(items), Active)
    && r in history && history[r] == History(Accepted(items), 0, [], 0)
  }

  /** Request `from + k` was started with the k-th schedule. */
  ghost predicate StartedFrom(requests: map<nat, Request>, history: map<nat, History>, from: nat,
                              started: seq<seq<Item>>) {
    forall k :: 0 <= k < |started| ==> HasStarted(requests, history, from + k, started[k])
  }

  /** Everything that existed is unchanged, except for request r. */
  ghost predicate Unchanged(requests: map<nat, Request>, history: map<nat, History>, requests': map<nat, Request>,
                            history': map<nat, History>, r: nat)
  {
    forall x: nat :: x in requests && x in history && x != r ==>
      x in requests' && x in history' && requests'[x] == requests[x] && history'[x] == history[x]
  }

  /** One more request is started under the next free number. */
  lemma StartedMore(p0: Pool, p: Pool, p': Pool, r: nat, started: seq<seq<Item>>, items: seq<Item>)
    requires StartedFrom(p.requests, p.history, p0.nextId, started)
    requires Unchanged(p0.requests, p0.history, p.requests, p.history, r)
    requires forall x: nat :: x in p0.requests ==> x < p0.nextId
    requires p'.requests == p.requests[p0.nextId + |started| := Request(Accepted(items), Active)]
    requires p'.history == p.history[p0.nextId + |started| := History(Accepted(items), 0, [], 0)]
    ensures StartedFrom(p'.requests, p'.history, p0.nextId, started + [items])
    ensures Unchanged(p0.requests, p0.history, p'.requests, p'.history, r)
  {
    forall k | 0 <= k < |started + [items]|
      ensures HasStarted(p'.requests, p'.history, p0.nextId + k, (started + [items])[k])
    {
      assert k < |started| ==> HasStarted(p.requests, p.history, p0.nextId + k, started[k]);
    }
  }

  /** Removing a finished request from the list. */
  lemma ConsistentFinish(requests: map<nat, Request>, history: map<nat, History>, active: seq<nat>, nextId: nat,
                         at: nat, q: Request, h: History)
    requires Consistent(requests, history, active, nextId) && at < |active|
    requires Sound(q, h) && q.state.Complete?
    ensures Consistent(requests[active[at] := q], history[active[at] := h], active[..at] + active[at + 1..], nextId)
  {
    hide Sound;
    var r := active[at];
    var left := active[..at] + active[at + 1..];
    assert active == active[..at] + [r] + active[at + 1..];
    assert r in active;
    forall x: nat
      ensures x in left <==> x in active && x != r
    {
      if x in active && x != r {
        var k :| 0 <= k < |active| && active[k] == x;
        assert x == if k < at then left[k] else left[k - 1];
      }
    }
  }

  /** The state of the scheduler as a value. */
  datatype Pool = Pool(requests: map<nat, Request>, history: map<nat, History>, active: seq<nat>, nextId: nat)

  /** The request at position `at` has been visited, nothing else has changed,
      and the requests it started are at the end of the list. */
  ghost predicate AfterVisit(p: Pool, p': Pool, at: nat, v: Visit)
    requires at < |p.active|
  {
    var r := p.active[at];
    && r in p'.requests && p'.requests[r] == v.request && r in p'.history && p'.history[r] == v.history
    && p'.nextId == p.nextId + |v.started|
    && p'.active == (if v.request.state.Complete? then p.active[..at] + p.active[at + 1..] else p.active)
        + Ids(p.nextId, |v.started|)
    && StartedFrom(p'.requests, p'.history, p.nextId, v.started)
    && Unchanged(p.requests, p.history, p'.requests, p'.history, r)
  }

  /** During a pass: of the requests there were at its start, those in `visited`
      have been visited, once, and the others are as they were. */
  ghost predicate Passing(p0: Pool, p: Pool, complete: nat -> nat -> bool, effect: nat -> nat -> Effect,
                          visited: set<nat>) {
    && p0.nextId <= p.nextId && (forall r :: r in visited ==> r < p.nextId)
    && forall r: nat :: r in p0.requests && r in p0.history ==> OneVisit(p0, p, complete, effect, visited, r)
  }

  ghost predicate OneVisit(p0: Pool, p: Pool, complete: nat -> nat -> bool, effect: nat -> nat -> Effect,
                           visited: set<nat>, r: nat)
    requires r in p0.requests && r in p0.history
  {
    && r < p0.nextId && r in p.requests && r in p.history && (r in visited ==> r in p0.active)
    && var v := Visited(p0.requests[r], p0.history[r], complete(r), effect(r));
       && p.requests[r] == (if r in visited then v.request else p0.requests[r])
       && p.history[r] == (if r in visited then v.history else p0.history[r])
  }

  /** What is still ahead at position `at` has not been visited. */
  ghost predicate Unvisited(p: Pool, at: nat, visited: set<nat>) {
    forall k :: at <= k < |p.active| ==> p.active[k] !in visited
  }

  ghost predicate AllAhead(p0: Pool, p: Pool, at: nat, visited: set<nat>) {
    forall r :: r in p0.active ==> r in visited || exists k :: at <= k < |p.active| && p.active[k] == r
  }

  lemma PassingStep(p0: Pool, p: Pool, p': Pool, complete: nat -> nat -> bool, effect: nat -> nat -> Effect,
                    visited: set<nat>, at: nat)
    requires Passing(p0, p, complete, effect, visited) && at < |p.active| && p.active[at] !in visited
    requires p.active[at] in p.requests && p.active[at] in p.history && p.active[at] < p.nextId
    requires p.active[at] < p0.nextId ==>
        p.active[at] in p0.active && p.active[at] in p0.requests && p.active[at] in p0.history
    requires AfterVisit(p, p', at, Visited(p.requests[p.active[at]], p.history[p.active[at]], complete(p.active[at]),
                                           effect(p.active[at])))
    ensures Passing(p0, p', complete, effect, visited + {p.active[at]})
  {
    var r := p.active[at];
    hide Visited, StartedFrom;
    forall x: nat | x in p0.requests && x in p0.history
      ensures OneVisit(p0, p', complete, effect, visited + {r}, x)
    {
      assert OneVisit(p0, p, complete, effect, visited, x);
    }
  }

  /** Where the pass goes on, given that there was something behind `at`. */
  lemma AheadStep(p0: Pool, p: Pool, p': Pool, visited: set<nat>, at: nat, v: Visit)
    requires at < |p.active| && Distinct(p.active) && AfterVisit(p, p', at, v)
    requires Unvisited(p, at, visited) && AllAhead(p0, p, at, visited) && forall r :: r in visited ==> r < p.nextId
    requires p.active[at] < p.nextId
    ensures var at', visited' := if v.request.state.Complete? then at else at + 1, visited + {p.active[at]};
      && at' <= |p'.active| && |p'.active| - at' == |p.active| - at - 1 + |v.started|
      && Unvisited(p', at', visited') && AllAhead(p0, p', at', visited')
      && (at + 1 == |p.active| ==> forall r :: r in p0.active ==> r in visited')
  {
    hide StartedFrom, Unchanged;
    var at', visited' := if v.request.state.Complete? then at else at + 1, visited + {p.active[at]};
    forall k | at' <= k < |p'.active|
      ensures p'.active[k] !in visited'
    {
      var j := k - at' + at + 1;
      assert p'.active[k] == if j < |p.active| then p.active[j] else p.nextId + (j - |p.active|);
    }
    forall r | r in p0.active && r !in visited'
      ensures exists k :: at' <= k < |p'.active| && p'.active[k] == r
    {
      var j :| at <= j < |p.active| && p.active[j] == r;
      assert p'.active[j - at - 1 + at'] == r;
    }
  }

  /** What a pass has done to the requests there were when it began: each active
      one has been visited exactly once, the others not at all. */
  ghost predicate PassDone(p0: Pool, p: Pool, complete: nat -> nat -> bool, effect: nat -> nat -> Effect) {
    forall r: nat :: r in p0.requests && r in p0.history ==>
      && r in p.requests && r in p.history
      && var v := Visited(p0.requests[r], p0.history[r], complete(r), effect(r));
         && p.requests[r] == (if r in p0.active then v.request else p0.requests[r])
         && p.history[r] == (if r in p0.active then v.history else p0.history[r])
  }

  lemma PassEnds(p0: Pool, p: Pool, complete: nat -> nat -> bool, effect: nat -> nat -> Effect, visited: set<nat>)
    requires Passing(p0, p, complete, effect, visited) && forall r :: r in p0.active ==> r in visited
    ensures PassDone(p0, p, complete, effect)
  {
    hide Visited;
    forall r: nat | r in p0.requests && r in p0.history
      ensures && r in p.requests && r in p.history
              && var v := Visited(p0.requests[r], p0.history[r], complete(r), effect(r));
                 && p.requests[r] == (if r in p0.active then v.request else p0.requests[r])
                 && p.history[r] == (if r in p0.active then v.history else p0.history[r])
    {
      assert OneVisit(p0, p, complete, effect, visited, r);
    }
  }

  ghost predicate ConsistentPool(p: Pool) {
    Consistent(p.requests, p.history, p.active, p.nextId)
  }

  /** A request on the list that is older than the pass and not visited yet was
      on the list when the pass began. */
  lemma StillActive(p0: Pool, p: Pool, complete: nat -> nat -> bool, effect: nat -> nat -> Effect, visited: set<nat>,
                    at: nat)
    requires ConsistentPool(p0) && ConsistentPool(p) && Passing(p0, p, complete, effect, visited)
    requires at < |p.active| && p.active[at] !in visited
    ensures var r := p.active[at];
      && r in p.requests && r in p.history && r < p.nextId && p.requests[r].state.Active?
      && Sound(p.requests[r], p.history[r])
      && (r < p0.nextId ==> r in p0.active && r in p0.requests && r in p0.history)
  {
    hide Visited, Sound;
    var r := p.active[at];
    assert r in p.active;
    if r < p0.nextId {
      assert r in p0.requests && r in p0.history;
      assert OneVisit(p0, p, complete, effect, visited, r);
    }
  }

  lemma NothingToStart(q: Request, h: History, complete: nat -> bool, effect: nat -> Effect)
    requires forall c :: effect(c).started == []
    ensures Visited(q, h, complete, effect).started == []
  {}

  /** The numbers below `limit` that have not been visited. */
  ghost function Remaining(limit: nat, visited: set<nat>): set<nat> {
    set r: nat | r < limit && r !in visited
  }

  /** After the first item of the visited request has been dealt with. */
  ghost predicate AfterFront(p: Pool, p': Pool, at: nat, v: Visit)
    requires at < |p.active|
  {
    var r := p.active[at];
    && r in p'.requests && p'.requests[r] == v.request && r in p'.history && p'.history[r] == v.history
    && p'.nextId == p.nextId + |v.started| && p'.active == p.active + Ids(p.nextId, |v.started|)
    && StartedFrom(p'.requests, p'.history, p.nextId, v.started)
    && Unchanged(p.requests, p.history, p'.requests, p'.history, r)
  }

  lemma VisitContinues(p: Pool, p': Pool, at: nat, v: Visit)
    requires at < |p.active| && AfterFront(p, p', at, v) && !v.request.state.Complete?
    ensures AfterVisit(p, p', at, v)
  {}

  lemma FinishKeeps(p: Pool, p': Pool, r: nat, started: seq<seq<Item>>, q: Request, h: History)
    requires StartedFrom(p'.requests, p'.history, p.nextId, started) && r < p.nextId
    requires Unchanged(p.requests, p.history, p'.requests, p'.history, r)
    ensures StartedFrom(p'.requests[r := q], p'.history[r := h], p.nextId, started)
    ensures Unchanged(p.requests, p.history, p'.requests[r := q], p'.history[r := h], r)
  {
    forall k | 0 <= k < |started|
      ensures HasStarted(p'.requests[r := q], p'.history[r := h], p.nextId + k, started[k])
    {
      assert HasStarted(p'.requests, p'.history, p.nextId + k, started[k]);
    }
  }

  lemma VisitEnds(p: Pool, p1: Pool, p': Pool, at: nat, v: Visit, success: bool)
    requires at < |p.active| && AfterFront(p, p1, at, v) && p.active[at] < p.nextId
    requires var r := p.active[at];
      && p'.requests == p1.requests[r := v.request.(state := Complete(success))]
      && p'.history == p1.history[r := v.history.(completions := v.history.completions + 1)]
      && p'.active == p1.active[..at] + p1.active[at + 1..] && p'.nextId == p1.nextId
    ensures AfterVisit(p, p', at, Completed(v, success))
  {
    var ids := Ids(p.nextId, |v.started|);
    FinishKeeps(p, p1, p.active[at], v.started, v.request.(state := Complete(success)),
                v.history.(completions := v.history.completions + 1));
    hide StartedFrom, Unchanged;
    assert (p.active + ids)[..at] + (p.active + ids)[at + 1..] == p.active[..at] + p.active[at + 1..] + ids;
  }

  lemma StartPass(p: Pool, complete: nat -> nat -> bool, effect: nat -> nat -> Effect)
    requires ConsistentPool(p)
    ensures Passing(p, p, complete, effect, {}) && Unvisited(p, 0, {}) && AllAhead(p, p, 0, {})
    ensures p.active == [] ==> forall r :: r in p.active ==> r in {}
  {}

  /** All that a visit in the course of a pass needs. */
  lemma PrepareVisit(p0: Pool, p: Pool, complete: nat -> nat -> bool, effect: nat -> nat -> Effect, visited: set<nat>,
                     at: nat, limit: nat)
    requires ConsistentPool(p0) && ConsistentPool(p) && Passing(p0, p, complete, effect, visited)
    requires at < |p.active| && Unvisited(p, at, visited)
    requires forall r: nat, c: nat :: r >= limit ==> effect(r)(c).started == []
    ensures var r := p.active[at];
      && r in p.requests && r in p.history && r < p.nextId && p.requests[r].state.Active?
      && Sound(p.requests[r], p.history[r])
      && (r < p0.nextId ==> r in p0.active && r in p0.requests && r in p0.history)
      && r !in visited && Distinct(p.active) && (forall x :: x in visited ==> x < p.nextId)
      && (r >= limit ==> Visited(p.requests[r], p.history[r], complete(r), effect(r)).started == [])
      && (if r < limit then Remaining(limit, visited + {r}) < Remaining(limit, visited)
          else Remaining(limit, visited + {r}) == Remaining(limit, visited))
  {
    var r := p.active[at];
    StillActive(p0, p, complete, effect, visited, at);
    if r >= limit {
      NothingToStart(p.requests[r], p.history[r], complete(r), effect(r));
    } else {
      assert r in Remaining(limit, visited) && r !in Remaining(limit, visited + {r});
    }
    assert forall x :: x in Remaining(limit, visited + {r}) <==> x in Remaining(limit, visited) && x != r;
  }

  /** A pool in which request r is about to become q. */
  datatype Origin = Origin(pool: Pool, r: nat, q: Request, h: History)

  /** Request r with what a callback appends to it. */
  ghost function Appended(p: Pool, r: nat, e: Effect): Origin
    requires r in p.requests && r in p.history
  {
    var q, h, more := p.requests[r], p.history[r], Accepted(e.appended);
    Origin(p, r, q.(schedule := q.schedule + more), h.(appended := h.appended + more))
  }

  class Scheduler {
    var requests: map<nat, Request>
    var nextId: nat
    /** The list of active requests, and whether progress is wanted for it. */
    var active: seq<nat>
    var progressActive: bool
    /** How often the progress function is registered. */
    var registrations: nat
    ghost var history: map<nat, History>

    ghost predicate Coherent()
      reads this
    {
      && Consistent(requests, history, active, nextId)
      && registrations == (if progressActive then 1 else 0)
    }

    /** Between calls progress is registered exactly while a request is active. */
    ghost predicate Valid()
      reads this
    {
      Coherent() && (progressActive <==> active != [])
    }

    constructor ()
      ensures Valid() && requests == map[] && active == []
    {
      requests, nextId, active, progressActive, registrations, history := map[], 0, [], false, 0, map[];
    }

    method Get() returns (r: nat)
      requires Coherent()
      modifies this`requests, this`nextId, this`history
      ensures Coherent() && r == old(nextId) && nextId == old(nextId) + 1
      ensures requests == old(requests)[r := FRESH] && history == old(history)[r := NO_HISTORY]
    {
      r := nextId;
      ConsistentNew(requests, history, active, nextId);
      requests, history, nextId := requests[r := FRESH], history[r := NO_HISTORY], nextId + 1;
    }

    /** Appends to the schedule of a request that has not finished. */
    method ScheduleAppend(r: nat, item: Item) returns (s: Status)
      requires Coherent() && r in requests && !requests[r].state.Complete?
      modifies this`requests, this`history
      ensures Coherent()
      ensures s == if |item.subreqs| > MAX_SUBREQ then BadParam else Success
      ensures s == BadParam ==> requests == old(requests) && history == old(history)
      ensures s == Success ==>
                && requests == old(requests)[r := old(requests)[r].(schedule := old(requests)[r].schedule + [item])]
                && history == old(history)[r := old(history)[r].(appended := old(history)[r].appended + [item])]
    {
      assert r in history && Sound(requests[r], history[r]);
      hide Consistent, Sound;
      if |item.subreqs| > MAX_SUBREQ { return BadParam; }
      AppendSound(requests[r], history[r], item);
      var q := requests[r].(schedule := requests[r].schedule + [item]);
      ghost var h := history[r].(appended := history[r].appended + [item]);
      ConsistentUpdate(requests, history, active, nextId, r, q, h);
      requests, history := requests[r := q], history[r := h];
      s := Success;
    }

    method Start(r: nat)
      requires Coherent() && r in requests && requests[r].state.Idle?
      modifies this`requests, this`active, this`progressActive, this`registrations
      ensures Coherent() && progressActive && active == old(active) + [r]
      ensures requests == old(requests)[r := old(requests)[r].(state := Active)]
      ensures old(progressActive) ==> registrations == old(registrations)
    {
      ConsistentStart(requests, history, active, nextId, r);
      active := active + [r];
      if !progressActive {
        registrations := registrations + 1;
        progressActive := true;
      }
      requests := requests[r := requests[r].(state := Active)];
    }

    // ----- what a callback does -----

    method AppendAll(r: nat, items: seq<Item>)
      requires Coherent() && r in requests && r in history && !requests[r].state.Complete?
      modifies this`requests, this`history
      ensures Coherent()
      ensures requests == old(requests)[r := old(requests)[r].(schedule := old(requests)[r].schedule + Accepted(items))]
      ensures history == old(history)[r := old(history)[r].(appended := old(history)[r].appended + Accepted(items))]
    {
      hide Consistent;
      var q := requests[r];
      ghost var h := history[r];
      assert q.schedule + [] == q.schedule && h.appended + [] == h.appended;
      assert requests == requests[r := q] && history == history[r := h];
      for k := 0 to |items|
        invariant Coherent()
        invariant requests == old(requests)[r := q.(schedule := q.schedule + Accepted(items[..k]))]
        invariant history == old(history)[r := h.(appended := h.appended + Accepted(items[..k]))]
      {
        assert items[..k + 1][..k] == items[..k];
        var s := ScheduleAppend(r, items[k]);
        AcceptedNext(q.schedule, items, k);
        AcceptedNext(h.appended, items, k);
      }
      assert items[..|items|] == items;
    }

    method StartNew(items: seq<Item>)
      requires Coherent() && progressActive
      modifies this
      ensures Coherent() && progressActive
      ensures nextId == old(nextId) + 1 && active == old(active) + [old(nextId)]
      ensures requests == old(requests)[old(nextId) := Request(Accepted(items), Active)]
      ensures history == old(history)[old(nextId) := History(Accepted(items), 0, [], 0)]
    {
      hide Consistent;
      var r := Get();
      AppendAll(r, items);
      assert [] + Accepted(items) == Accepted(items);
      Start(r);
    }

    /** Since `o.pool`, in which r became q, these schedules have been started. */
    ghost predicate Launched(o: Origin, started: seq<seq<Item>>)
      reads this
    {
      && Coherent() && progressActive
      && o.r in requests && requests[o.r] == o.q && o.r in history && history[o.r] == o.h
      && nextId == o.pool.nextId + |started| && active == o.pool.active + Ids(o.pool.nextId, |started|)
      && StartedFrom(requests, history, o.pool.nextId, started)
      && Unchanged(o.pool.requests, o.pool.history, requests, history, o.r)
    }

    /** Only r has become q so far. */
    lemma NothingLaunched(o: Origin)
      requires Coherent() && progressActive
      requires View() == o.pool.(requests := o.pool.requests[o.r := o.q], history := o.pool.history[o.r := o.h])
      ensures Launched(o, [])
    {
      hide Consistent;
      Untouched(o.pool.requests, o.pool.history, o.r, o.q, o.h, o.pool.nextId);
      assert active == active + Ids(nextId, 0);
    }

    method StartNext(items: seq<Item>, ghost o: Origin, ghost started: seq<seq<Item>>)
      requires Launched(o, started) && o.r < o.pool.nextId
      requires forall x: nat :: x in o.pool.requests ==> x < o.pool.nextId
      modifies this
      ensures Launched(o, started + [items])
    {
      hide Consistent, StartedFrom, Unchanged;
      ghost var p := View();
      StartNew(items);
      StartedMore(o.pool, p, View(), o.r, started, items);
    }

    /** The callback of request r appends to it and starts other requests. */
    method RunCallback(r: nat, e: Effect)
      requires Coherent() && progressActive && r in requests && r in history && !requests[r].state.Complete?
      modifies this
      ensures Launched(Appended(old(View()), r, e), e.started)
    {
      assert forall x: nat :: x in requests ==> x < nextId;
      hide Consistent, StartedFrom, Unchanged, Accepted;
      ghost var o := Appended(View(), r, e);
      AppendAll(r, e.appended);
      NothingLaunched(o);
      StartAll(e.started, o);
    }

    method StartAll(started: seq<seq<Item>>, ghost o: Origin)
      requires Launched(o, []) && o.r < o.pool.nextId && forall x: nat :: x in o.pool.requests ==> x < o.pool.nextId
      modifies this
      ensures Launched(o, started)
    {
      hide *;
      var k := 0;
      assert started[..0] == [];
      while k < |started|
        invariant k <= |started| && Launched(o, started[..k])
      {
        StartNext(started[k], o, started[..k]);
        assert started[..k + 1] == started[..k] + [started[k]];
        k := k + 1;
      }
      assert started[..|started|] == started;
    }

    // ----- one pass over the active requests -----

    method SetRequest(r: nat, q: Request, ghost h: History)
      requires Coherent() && r in requests && Sound(q, h) && (q.state.Active? <==> requests[r].state.Active?)
      modifies this`requests, this`history
      ensures Coherent() && requests == old(requests)[r := q] && history == old(history)[r := h]
    {
      ConsistentUpdate(requests, history, active, nextId, r, q, h);
      hide Consistent, Sound;
      requests, history := requests[r := q], history[r := h];
    }

    method Callback(r: nat, item: Item, effect: nat -> Effect) returns (rc: int)
      requires Coherent() && progressActive && r in requests && r in history && !requests[r].state.Complete?
      modifies this
      ensures var e := EffectOf(item, effect);
        rc == e.rc && Launched(Appended(old(View()), r, e), e.started)
    {
      if item.callback.Some? {
        hide *;
        var e := effect(item.callback.value);
        rc := e.rc;
        RunCallback(r, e);
      } else {
        rc := 0;
        NothingStarted(r, requests[r], history[r]);
        assert requests[r].schedule + [] == requests[r].schedule && history[r].appended + [] == history[r].appended;
      }
    }

    lemma NothingStarted(r: nat, q: Request, h: History)
      requires Coherent() && progressActive && r in requests && r in history && requests[r] == q && history[r] == h
      ensures Launched(Origin(View(), r, q, h), [])
    {
      hide Consistent;
      assert active == active + Ids(nextId, 0);
    }

    /** What was launched after r had become q1 was launched since before that. */
    lemma LaunchedSince(p: Pool, o: Origin, started: seq<seq<Item>>, q1: Request, h1: History)
      requires o.pool == p.(requests := p.requests[o.r := q1], history := p.history[o.r := h1]) && Launched(o, started)
      ensures Launched(o.(pool := p), started)
    {
      hide Consistent, StartedFrom;
    }

    /** Takes the first item off the schedule and runs its callback. */
    method RunItem(r: nat, item: Item, effect: nat -> Effect, ghost q1: Request, ghost h1: History) returns (rc: int)
      requires Coherent() && progressActive && r in requests && r in history && requests[r].schedule != []
      requires q1 == requests[r].(schedule := requests[r].schedule[1..]) && Sound(q1, h1)
      requires requests[r].state.Active?
      modifies this
      ensures var e := EffectOf(item, effect);
        && rc == e.rc
        && Launched(Origin(old(View()), r, q1.(schedule := q1.schedule + Accepted(e.appended)),
                           h1.(appended := h1.appended + Accepted(e.appended))), e.started)
    {
      hide Consistent, Sound, StartedFrom, Unchanged, EffectOf;
      ghost var p := View();
      SetRequest(r, requests[r].(schedule := requests[r].schedule[1..]), h1);
      ghost var p1 := View();
      rc := Callback(r, item, effect);
      ghost var e := EffectOf(item, effect);
      LaunchedSince(p, Appended(p1, r, e), e.started, q1, h1);
    }

    /** Polls the sub-requests of an item from the last one on. */
    static method Poll(subreqs: seq<nat>, complete: nat -> bool) returns (waiting: seq<nat>)
      ensures waiting == Waiting(subreqs, complete)
    {
      waiting := subreqs;
      while waiting != [] && complete(waiting[|waiting| - 1])
        invariant Waiting(waiting, complete) == Waiting(subreqs, complete)
        decreases |waiting|
      {
        waiting := waiting[..|waiting| - 1];
      }
    }

    method VisitFront(r: nat, complete: nat -> bool, effect: nat -> Effect) returns (rc: int)
      requires Coherent() && progressActive && r in requests && r in history
      requires Sound(requests[r], history[r]) && requests[r].state.Active?
      modifies this
      ensures var v := Fronted(old(requests)[r], old(history)[r], complete, effect);
        rc == v.rc && Launched(Origin(old(View()), r, v.request, v.history), v.started)
    {
      rc := 0;
      var q := requests[r];
      ghost var h := history[r];
      if q.schedule == [] {
        NothingStarted(r, q, h);
      } else {
        var item := q.schedule[0];
        var waiting := Poll(item.subreqs, complete);
        if waiting != [] {
          WaitingSound(q, h, waiting);
          var q1 := q.(schedule := [item.(subreqs := waiting)] + q.schedule[1..]);
          ghost var h1 := h.(freed := h.freed + Backwards(item.subreqs[|waiting|..]));
          hide Sound, Consistent, StartedFrom, Unchanged;
          ghost var o := Origin(View(), r, q1, h1);
          SetRequest(r, q1, h1);
          NothingLaunched(o);
        } else {
          assert item.subreqs[0..] == item.subreqs;
          ghost var freed := h.freed + Backwards(item.subreqs);
          RanOnly(q, h, freed);
          rc := RunItem(r, item, effect, q.(schedule := q.schedule[1..]),
                        History(h.appended, h.ran + 1, freed, h.completions));
        }
      }
    }

    ghost function View(): Pool
      reads this
    {
      Pool(requests, history, active, nextId)
    }

    method Become(requests': map<nat, Request>, active': seq<nat>, ghost history': map<nat, History>)
      requires Coherent() && Consistent(requests', history', active', nextId)
      modifies this`requests, this`active, this`history
      ensures Coherent() && View() == Pool(requests', history', active', nextId)
    {
      hide Consistent;
      requests, active, history := requests', active', history';
    }

    /** Takes a request with nothing left off the list and completes it. */
    method Finish(at: nat, rc: int, ghost p: Pool, ghost v: Visit)
      requires Coherent() && at < |p.active| && AfterFront(p, View(), at, v) && p.active[at] < p.nextId
      requires Sound(v.request, v.history) && v.request.state.Active? && v.request.schedule == []
      modifies this`requests, this`active, this`history
      ensures Coherent() && AfterVisit(p, View(), at, Completed(v, rc == 0))
    {
      var r := active[at];
      assert r == p.active[at] && r in requests && r in history && requests[r] == v.request && history[r] == v.history;
      CompletedSound(v.request, v.history, rc == 0);
      hide AfterFront, Sound;
      var q := requests[r].(state := Complete(rc == 0));
      ghost var h := history[r].(completions := history[r].completions + 1);
      ConsistentFinish(requests, history, active, nextId, at, q, h);
      VisitEnds(p, View(), Pool(requests[r := q], history[r := h], active[..at] + active[at + 1..], nextId), at, v,
                rc == 0);
      hide Consistent, AfterVisit, Completed;
      Become(requests[r := q], active[..at] + active[at + 1..], history[r := h]);
    }

    /** One request of the active list; it is taken off if nothing is left for it. */
    method Visit(at: nat, complete: nat -> bool, effect: nat -> Effect) returns (removed: bool)
      requires Coherent() && progressActive && at < |active| && active[at] in requests && active[at] in history
      requires active[at] < nextId
      requires Sound(requests[active[at]], history[active[at]]) && requests[active[at]].state.Active?
      modifies this
      ensures Coherent() && progressActive
      ensures var v := Visited(old(requests)[old(active)[at]], old(history)[old(active)[at]], complete, effect);
        (removed <==> v.request.state.Complete?) && AfterVisit(old(View()), View(), at, v)
    {
      var r := active[at];
      ghost var p := View();
      ghost var v := Fronted(requests[r], history[r], complete, effect);
      FrontedSound(requests[r], history[r], complete, effect);
      ghost var w := Visited(requests[r], history[r], complete, effect);
      assert w == if v.request.schedule != [] then v else Completed(v, v.rc == 0);
      assert w.request.state.Complete? <==> v.request.schedule == [];
      hide Consistent, Sound, StartedFrom, Unchanged, Fronted, Visited, Completed, AfterVisit;
      var rc := VisitFront(r, complete, effect);
      removed := requests[r].schedule == [];
      if removed {
        Finish(at, rc, p, v);
      } else {
        VisitContinues(p, View(), at, v);
      }
    }

    /** The progress function.  The step to the next request is decided before
        the present one is visited, so a request started by the last one waits
        for the next pass.  A pass ends only if from some number on the requests
        it meets start no others. */
    method Progress(complete: nat -> nat -> bool, effect: nat -> nat -> Effect, ghost limit: nat)
      requires Valid() && progressActive
      requires forall r: nat, c: nat :: r >= limit ==> effect(r)(c).started == []
      modifies this
      ensures Valid()
      ensures PassDone(old(View()), View(), complete, effect)
    {
      ghost var p0, visited := View(), {};
      StartPass(p0, complete, effect);
      hide Consistent, Sound, StartedFrom, Unchanged, Visited, Passing, Unvisited, AllAhead;
      var at: nat, more := 0, active != [];
      while more
        invariant Coherent() && progressActive && at <= |active| && (more ==> at < |active|)
        invariant Passing(p0, View(), complete, effect, visited)
        invariant if more then Unvisited(View(), at, visited) && AllAhead(p0, View(), at, visited)
                  else forall r :: r in p0.active ==> r in visited
        decreases more, Remaining(limit, visited), |active| - at
      {
        var r, hasNext := active[at], at + 1 < |active|;
        ghost var p := View();
        PrepareVisit(p0, p, complete, effect, visited, at, limit);
        ghost var v := Visited(p.requests[r], p.history[r], complete(r), effect(r));
        var removed := Visit(at, complete(r), effect(r));
        PassingStep(p0, p, View(), complete, effect, visited, at);
        AheadStep(p0, p, View(), visited, at, v);
        if !removed { at := at + 1; }
        more, visited := hasNext, visited + {r};
      }
      PassEnds(p0, View(), complete, effect, visited);
      if active == [] {
        progressActive := false;
        registrations := registrations - 1;
      }
    }
  }

  lemma Untouched(requests: map<nat, Request>, history: map<nat, History>, r: nat, q: Request, h: History, from: nat)
    ensures StartedFrom(requests[r := q], history[r := h], from, [])
    ensures Unchanged(requests, history, requests[r := q], history[r := h], r)
  {}

  lemma AcceptedNext(base: seq<Item>, items: seq<Item>, k: nat)
    requires k < |items|
    ensures base + Accepted(items[..k + 1])
         == if |items[k].subreqs| <= MAX_SUBREQ then base + Accepted(items[..k]) + [items[k]]
            else base + Accepted(items[..k])
  {
    assert items[..k + 1][..k] == items[..k];
  }

  lemma AppendSound(q: Request, h: History, item: Item)
    requires Sound(q, h) && |item.subreqs| <= MAX_SUBREQ && !q.state.Complete?
    ensures Sound(q.(schedule := q.schedule + [item]), h.(appended := h.appended + [item]))
  {
    var h' := h.(appended := h.appended + [item]);
    assert h'.appended[..h.ran] == h.appended[..h.ran];
    if q.schedule == [] {
      assert h.appended[..h.ran] == h.appended;
      assert h.freed + Backwards(item.subreqs[|item.subreqs|..]) == h.freed;
    } else {
      assert (q.schedule + [item])[1..] == q.schedule[1..] + [item];
      assert h'.appended[h.ran + 1..] == h.appended[h.ran + 1..] + [item];
    }
  }
}
