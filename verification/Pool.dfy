/** The download pool: workers that share a cursor and the first failure, in every interleaving. */
module Pool {
  import opened Common

  type Error = string

  datatype Worker = AtTop | Running(index: nat) | Exited

  datatype Pool = Pool(
    n: nat,                    // number of tasks
    cursor: nat,
    failure: Option<Error>,
    workers: seq<Worker>,
    started: seq<nat>,         // history: tasks in the order they were started
    completed: set<nat>,       // history: tasks that resolved
    failed: set<nat>,          // history: tasks that rejected
    errors: seq<Error>)        // history: their errors in order

  datatype Event = Turn(w: nat) | Finish(w: nat) | Fail(w: nat, error: Error)

  /** Turn is one pass over the checks at the top of the worker's loop; Finish and Fail settle its task. */
  predicate Enabled(p: Pool, e: Event) {
    e.w < |p.workers| && if e.Turn? then p.workers[e.w].AtTop? else p.workers[e.w].Running?
  }

  function Next(p: Pool, e: Event): Pool
    requires Enabled(p, e)
  {
    match e
    case Turn(w) =>
      if p.failure.Some? then p.(workers := p.workers[w := Exited])
      else if p.cursor >= p.n then p.(cursor := p.cursor + 1, workers := p.workers[w := Exited])
      else p.(cursor := p.cursor + 1, workers := p.workers[w := Running(p.cursor)], started := p.started + [p.cursor])
    case Finish(w) => p.(workers := p.workers[w := AtTop], completed := p.completed + {p.workers[w].index})
    case Fail(w, error) =>
      p.(failure := if p.failure.Some? then p.failure else Some(error), workers := p.workers[w := Exited],
         failed := p.failed + {p.workers[w].index}, errors := p.errors + [error])
  }

  function Width(n: nat, limit: int): nat { Max(1, Min(limit, n)) }

  function Init(n: nat, limit: int): Pool {
    Pool(n, 0, None, seq(Width(n, limit), _ => AtTop), [], {}, {}, [])
  }

  predicate IsRun(p: Pool, es: seq<Event>)
    decreases |es|
  {
    es == [] || (Enabled(p, es[0]) && IsRun(Next(p, es[0]), es[1..]))
  }

  function After(p: Pool, es: seq<Event>): Pool
    requires IsRun(p, es)
    decreases |es|
  {
    if es == [] then p else After(Next(p, es[0]), es[1..])
  }

  /** The pool settles when every worker has exited; it then throws the recorded error if there is one. */
  predicate Settled(p: Pool) { forall w :: 0 <= w < |p.workers| ==> p.workers[w].Exited? }

  // ---------------------------------------------------------------- the invariant

  function Upto(k: nat): seq<nat> { seq(k, i => i) }

  predicate IsRunning(p: Pool, w: int, i: int) {
    0 <= w < |p.workers| && p.workers[w].Running? && p.workers[w].index == i
  }

  predicate SettledTask(p: Pool, i: int) { i in p.completed || i in p.failed }

  /** Tasks are started in order, once each; none runs in two workers or after it settled, or settles twice. */
  ghost predicate Ordered(p: Pool) {
    && p.started == Upto(Min(p.cursor, p.n))
    && (forall w, v, i :: IsRunning(p, w, i) && IsRunning(p, v, i) ==> w == v)
    && (forall w, i :: IsRunning(p, w, i) ==> i < |p.started| && !SettledTask(p, i))
    && (forall i :: SettledTask(p, i) ==> i < |p.started|)
    && p.completed !! p.failed
  }

  /** No started task is forgotten. */
  ghost predicate Accounted(p: Pool) {
    forall i :: 0 <= i < |p.started| ==> SettledTask(p, i) || exists w :: IsRunning(p, w, i)
  }

  /**
    The recorded failure is the first one; without one nothing failed, and a worker exits only when the tasks ran out.
   */
  predicate Recorded(p: Pool) {
    && (p.errors == [] <==> p.failure.None?)
    && (p.errors != [] ==> p.failure == Some(p.errors[0]))
    && (p.failure.None? ==> p.failed == {})
    && (p.failure.None? ==> forall w :: 0 <= w < |p.workers| && p.workers[w].Exited? ==> p.cursor >= p.n)
  }

  ghost predicate Good(p: Pool) { Ordered(p) && Accounted(p) && Recorded(p) }

  lemma OrderedStep(p: Pool, e: Event)
    requires Ordered(p) && Enabled(p, e)
    ensures Ordered(Next(p, e))
  {
    var q := Next(p, e);
    assert q.started == Upto(Min(q.cursor, q.n));
    if e.Turn? {
      assert forall i :: SettledTask(q, i) <==> SettledTask(p, i);
      assert forall w, i :: IsRunning(q, w, i) ==>
          (IsRunning(p, w, i) && w != e.w) || (w == e.w && i == |p.started| < |q.started|);
    } else {
      var x := p.workers[e.w].index;
      assert IsRunning(p, e.w, x);
      assert forall i :: SettledTask(q, i) <==> SettledTask(p, i) || i == x;
      assert forall w, i :: IsRunning(q, w, i) ==> IsRunning(p, w, i) && w != e.w;
    }
  }

  lemma AccountedStep(p: Pool, e: Event)
    requires Ordered(p) && Accounted(p) && Enabled(p, e)
    ensures Accounted(Next(p, e))
  {
    var q := Next(p, e);
    forall i | 0 <= i < |q.started| ensures SettledTask(q, i) || exists w :: IsRunning(q, w, i) {
      if i == |p.started| {
        assert IsRunning(q, e.w, i);
      } else if !SettledTask(p, i) {
        var w :| IsRunning(p, w, i);
        if w != e.w {
          assert IsRunning(q, w, i);
        }
      }
    }
  }

  lemma RecordedStep(p: Pool, e: Event)
    requires Recorded(p) && Enabled(p, e)
    ensures Recorded(Next(p, e))
  {
  }

  lemma {:induction false} RunKeeps(p: Pool, es: seq<Event>)
    requires IsRun(p, es) && Good(p)
    ensures Good(After(p, es)) && After(p, es).n == p.n && |After(p, es).workers| == |p.workers|
    decreases |es|
  {
    hide Ordered, Accounted, Recorded;
    if es != [] {
      OrderedStep(p, es[0]);
      AccountedStep(p, es[0]);
      RecordedStep(p, es[0]);
      RunKeeps(Next(p, es[0]), es[1..]);
    }
  }

  lemma InitIsGood(n: nat, limit: int)
    ensures Good(Init(n, limit))
  {
  }

  // ---------------------------------------------------------------- whole runs

  /** In every interleaving the started tasks are an initial segment of the tasks, each started once. */
  lemma StartedInOrder(n: nat, limit: int, es: seq<Event>)
    requires IsRun(Init(n, limit), es)
    ensures var p := After(Init(n, limit), es); |p.started| <= n && p.started == Upto(|p.started|)
  {
    hide Accounted, Recorded, Next, Enabled;
    InitIsGood(n, limit);
    RunKeeps(Init(n, limit), es);
  }

  /** The workers that run a task. */
  function Busy(p: Pool): set<nat> { set w: nat | w < |p.workers| && p.workers[w].Running? }

  function RunningTasks(p: Pool): set<nat> { set w | w in Busy(p) :: p.workers[w].index }

  lemma {:induction false} SubsetSize(s: set<nat>, k: nat)
    requires forall i :: i in s ==> i < k
    ensures |s| <= k
  {
    if k == 0 {
      assert s == {};
    } else {
      SubsetSize(s - {k - 1}, k - 1);
      assert s <= (s - {k - 1}) + {k - 1};
    }
  }

  /** As many tasks run as workers are busy, because no task runs twice. */
  lemma {:induction false} AsManyTasks(p: Pool, ws: set<nat>)
    requires Ordered(p) && ws <= Busy(p)
    ensures |set w | w in ws :: p.workers[w].index| == |ws|
    decreases |ws|
  {
    var tasks := set w | w in ws :: p.workers[w].index;
    if ws != {} {
      var v :| v in ws;
      var i := p.workers[v].index;
      AsManyTasks(p, ws - {v});
      forall w | w in ws - {v} ensures p.workers[w].index != i {
        assert IsRunning(p, w, p.workers[w].index) && IsRunning(p, v, i);
      }
      assert tasks == (set w | w in ws - {v} :: p.workers[w].index) + {i};
    }
  }

  /** At most `limit` tasks run at a time (one when the limit is below one), and never more than there are. */
  lemma BoundedConcurrency(n: nat, limit: int, es: seq<Event>)
    requires IsRun(Init(n, limit), es)
    ensures |Busy(After(Init(n, limit), es))| <= Min(Max(1, limit), n)
  {
    hide Accounted, Recorded, Next, Enabled, IsRun, After;
    InitIsGood(n, limit);
    RunKeeps(Init(n, limit), es);
    var p := After(Init(n, limit), es);
    SubsetSize(Busy(p), |p.workers|);
    AsManyTasks(p, Busy(p));
    forall i | i in RunningTasks(p) ensures i < n {
      var w :| w in Busy(p) && p.workers[w].index == i;
      assert IsRunning(p, w, i);
    }
    SubsetSize(RunningTasks(p), n);
  }

  /** The workers below an index have taken the tasks of the same number. */
  predicate Filled(p: Pool, k: nat) {
    && k <= |p.workers| && p.cursor == k && p.failure.None?
    && forall w :: 0 <= w < |p.workers| ==> p.workers[w] == if w < k then Running(w) else AtTop
  }

  lemma {:induction false} FillUp(p: Pool, k: nat, limit: nat) returns (es: seq<Event>)
    requires Filled(p, k) && k <= limit <= p.n && limit <= |p.workers|
    ensures IsRun(p, es) && Filled(After(p, es), limit)
    decreases limit - k
  {
    if k == limit {
      es := [];
    } else {
      var rest := FillUp(Next(p, Turn(k)), k + 1, limit);
      es := [Turn(k)] + rest;
      assert es[1..] == rest;
    }
  }

  function Below(k: nat): (s: set<nat>)
    ensures |s| == k && forall w: nat :: w in s <==> w < k
  {
    if k == 0 then {} else Below(k - 1) + {k - 1}
  }

  /** The bound is reached: some run has that many tasks in progress at once. */
  lemma ConcurrencyIsReached(n: nat, limit: int) returns (es: seq<Event>)
    ensures IsRun(Init(n, limit), es) && |Busy(After(Init(n, limit), es))| == Min(Max(1, limit), n)
  {
    hide IsRun, After, Next, Enabled;
    var k := Min(Max(1, limit), n);
    es := FillUp(Init(n, limit), 0, k);
    var p := After(Init(n, limit), es);
    assert Busy(p) == Below(k);
  }

  /** After a recorded failure nothing starts and the recorded error stays. */
  lemma {:induction false} NothingStartsAfterFailure(p: Pool, es: seq<Event>)
    requires IsRun(p, es) && p.failure.Some?
    ensures After(p, es).started == p.started && After(p, es).failure == p.failure
    decreases |es|
  {
    if es != [] {
      NothingStartsAfterFailure(Next(p, es[0]), es[1..]);
    }
  }

  /** A settled pool throws the first error that happened, or returns after all tasks completed. */
  lemma SettledMeans(n: nat, limit: int, es: seq<Event>)
    requires IsRun(Init(n, limit), es) && Settled(After(Init(n, limit), es))
    ensures var p := After(Init(n, limit), es);
            if p.errors == [] then p.failure.None? && (forall i :: 0 <= i < n ==> i in p.completed)
            else p.failure == Some(p.errors[0])
  {
    hide Next, Enabled, IsRun, After;
    InitIsGood(n, limit);
    RunKeeps(Init(n, limit), es);
    var p := After(Init(n, limit), es);
    assert p.workers[0].Exited?;
    forall i | 0 <= i < n && p.errors == [] ensures i in p.completed {
      assert SettledTask(p, i);
    }
  }

  // ---------------------------------------------------------------- termination

  function Weight(w: Worker): nat { match w case AtTop => 1 case Running(_) => 2 case Exited => 0 }

  function Weights(ws: seq<Worker>): nat {
    if ws == [] then 0 else Weight(ws[0]) + Weights(ws[1..])
  }

  lemma {:induction false} WeightsUpdate(ws: seq<Worker>, w: nat, x: Worker)
    requires w < |ws|
    ensures Weights(ws[w := x]) == Weights(ws) - Weight(ws[w]) + Weight(x)
  {
    if w == 0 {
      assert ws[0 := x][1..] == ws[1..];
    } else {
      assert ws[w := x][1..] == ws[1..][w - 1 := x];
      WeightsUpdate(ws[1..], w - 1, x);
    }
  }

  function Measure(p: Pool): int { 3 * (p.n - Min(p.cursor, p.n)) + Weights(p.workers) }

  lemma StepDecreases(p: Pool, e: Event)
    requires Enabled(p, e)
    ensures 0 <= Measure(Next(p, e)) < Measure(p)
  {
    hide Weights;
    WeightsUpdate(p.workers, e.w, Next(p, e).workers[e.w]);
    assert Next(p, e).workers == p.workers[e.w := Next(p, e).workers[e.w]];
  }

  lemma {:induction false} FreshWeights(ws: seq<Worker>)
    requires forall i :: 0 <= i < |ws| ==> ws[i] == AtTop
    ensures Weights(ws) == |ws|
  {
    if ws != [] {
      FreshWeights(ws[1..]);
    }
  }

  lemma {:induction false} RunBound(p: Pool, es: seq<Event>)
    requires IsRun(p, es)
    ensures |es| + Measure(After(p, es)) <= Measure(p)
    decreases |es|
  {
    hide Measure, Next, Enabled;
    if es != [] {
      StepDecreases(p, es[0]);
      RunBound(Next(p, es[0]), es[1..]);
    }
  }

  /** Every run is short, and one that can go no further has settled: the pool always terminates. */
  lemma PoolTerminates(n: nat, limit: int, es: seq<Event>)
    requires IsRun(Init(n, limit), es)
    ensures |es| <= 3 * n + Width(n, limit)
    ensures (forall e :: !Enabled(After(Init(n, limit), es), e)) ==> Settled(After(Init(n, limit), es))
  {
    hide Next, IsRun, After;
    RunBound(Init(n, limit), es);
    FreshWeights(Init(n, limit).workers);
    var p := After(Init(n, limit), es);
    forall w | 0 <= w < |p.workers| && !p.workers[w].Exited? ensures exists e :: Enabled(p, e) {
      assert Enabled(p, if p.workers[w].AtTop? then Turn(w) else Finish(w));
    }
  }
}
