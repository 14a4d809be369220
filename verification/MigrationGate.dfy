/**
  The migration gate: `set_ready` stores the flag and then notifies, `wait` registers, then checks, then
  parks. Any number of calls of both, in every interleaving of their steps.
 */
module MigrationGate {

  /** A `set_ready` call before its store and between its store and its notification. */
  datatype Setter = Called(ready: bool) | Stored(ready: bool)

  /** A `wait` call: at the top of its loop, registered, suspended, or returned. A mark remembers a notification. */
  datatype Waiter = AtTop | Registered(marked: bool) | Parked(marked: bool) | Returned

  datatype Gate = Gate(ready: bool, setters: map<nat, Setter>, waiters: map<nat, Waiter>)

  datatype Event =
    | CallSet(s: nat, ready: bool)
    | Store(s: nat)
    | Notify(s: nat)
    | CallWait(w: nat)
    | Register(w: nat)
    | Check(w: nat)
    | Wake(w: nat)
    | Drop(w: nat)       // the waiting future is dropped

  predicate Enabled(g: Gate, e: Event) {
    match e
    case CallSet(s, _) => s !in g.setters
    case Store(s) => s in g.setters && g.setters[s].Called?
    case Notify(s) => s in g.setters && g.setters[s].Stored?
    case CallWait(w) => w !in g.waiters
    case Register(w) => w in g.waiters && g.waiters[w].AtTop?
    case Check(w) => w in g.waiters && g.waiters[w].Registered?
    case Wake(w) => w in g.waiters && g.waiters[w].Parked? && g.waiters[w].marked
    case Drop(w) => w in g.waiters
  }

  function Marked(w: Waiter): Waiter {
    match w
    case Registered(_) => Registered(true)
    case Parked(_) => Parked(true)
    case _ => w
  }

  function Next(g: Gate, e: Event): Gate
    requires Enabled(g, e)
  {
    match e
    case CallSet(s, ready) => g.(setters := g.setters[s := Called(ready)])
    case Store(s) => g.(ready := g.setters[s].ready, setters := g.setters[s := Stored(g.setters[s].ready)])
    case Notify(s) => g.(setters := g.setters - {s}, waiters := map w | w in g.waiters :: Marked(g.waiters[w]))
    case CallWait(w) => g.(waiters := g.waiters[w := AtTop])
    case Register(w) => g.(waiters := g.waiters[w := Registered(false)])
    case Check(w) => g.(waiters := g.waiters[w := if g.ready then Returned else Parked(g.waiters[w].marked)])
    case Wake(w) => g.(waiters := g.waiters[w := AtTop])
    case Drop(w) => g.(waiters := g.waiters - {w})
  }

  function Init(ready: bool): Gate { Gate(ready, map[], map[]) }

  predicate IsRun(g: Gate, es: seq<Event>)
    decreases |es|
  {
    es == [] || (Enabled(g, es[0]) && IsRun(Next(g, es[0]), es[1..]))
  }

  function After(g: Gate, es: seq<Event>): Gate
    requires IsRun(g, es)
    decreases |es|
  {
    if es == [] then g else After(Next(g, es[0]), es[1..])
  }

  // ---------------------------------------------------------------- no lost wake-up

  predicate Stranded(g: Gate, w: nat) { w in g.waiters && g.waiters[w] == Parked(false) }

  predicate Announcing(g: Gate, s: nat) { s in g.setters && g.setters[s] == Stored(true) }

  /** Whoever sleeps unnotified before an open gate is about to be notified by a call that opened it. */
  ghost predicate Attended(g: Gate) {
    g.ready && (exists w :: Stranded(g, w)) ==> exists s :: Announcing(g, s)
  }

  lemma StepKeepsAttended(g: Gate, e: Event)
    requires Attended(g) && Enabled(g, e)
    ensures Attended(Next(g, e))
  {
    var h := Next(g, e);
    if h.ready && exists w :: Stranded(h, w) {
      var w :| Stranded(h, w);
      if e.Store? {
        assert Announcing(h, e.s);
      } else {
        assert !e.Notify? && Stranded(g, w);
        var s :| Announcing(g, s);
        assert Announcing(h, s);
      }
    }
  }

  lemma {:induction false} RunKeepsAttended(g: Gate, es: seq<Event>)
    requires IsRun(g, es) && Attended(g)
    ensures Attended(After(g, es))
    decreases |es|
  {
    hide Attended, Next, Enabled;
    if es != [] {
      StepKeepsAttended(g, es[0]);
      RunKeepsAttended(Next(g, es[0]), es[1..]);
    }
  }

  /** No interleaving loses a wake-up. */
  lemma NoLostWakeUp(ready: bool, es: seq<Event>, w: nat)
    requires IsRun(Init(ready), es) && After(Init(ready), es).ready && Stranded(After(Init(ready), es), w)
    ensures exists s :: Announcing(After(Init(ready), es), s)
  {
    RunKeepsAttended(Init(ready), es);
  }

  /** A waiter that remembers a notification. */
  predicate Told(g: Gate, w: nat) {
    w in g.waiters && (g.waiters[w] == Registered(true) || g.waiters[w] == Parked(true))
  }

  /** A waiter remembers a notification until it wakes up or returns. */
  lemma {:induction false} ToldStays(g: Gate, es: seq<Event>, w: nat)
    requires IsRun(g, es) && Wake(w) !in es && Drop(w) !in es && (Told(g, w) || Done(g, w))
    ensures Told(After(g, es), w) || Done(After(g, es), w)
    decreases |es|
  {
    if es != [] {
      assert es[0] != Wake(w) && es[0] != Drop(w);
      ToldStays(Next(g, es[0]), es[1..], w);
    }
  }

  /** A notification reaches every call of `wait` that has registered, before or after it parks. */
  lemma NotificationReaches(g: Gate, s: nat, es: seq<Event>, w: nat)
    requires w in g.waiters && (g.waiters[w].Registered? || g.waiters[w].Parked?)
    requires Enabled(g, Notify(s)) && IsRun(Next(g, Notify(s)), es) && Wake(w) !in es && Drop(w) !in es
    ensures Told(After(Next(g, Notify(s)), es), w) || Done(After(Next(g, Notify(s)), es), w)
  {
    ToldStays(Next(g, Notify(s)), es, w);
  }

  lemma {:induction false} ToldByNotify(g: Gate, es: seq<Event>, w: nat)
    requires IsRun(g, es) && !Told(g, w) && Told(After(g, es), w)
    ensures exists i :: 0 <= i < |es| && es[i].Notify?
    decreases |es|
  {
    var h := Next(g, es[0]);
    if Told(h, w) {
      assert es[0].Notify?;
    } else {
      ToldByNotify(h, es[1..], w);
      var i :| 0 <= i < |es[1..]| && es[1..][i].Notify?;
      assert es[i + 1].Notify?;
    }
  }

  /** A waiter wakes up only for a notification that came after it registered. */
  lemma WakeMeansNotified(g: Gate, es: seq<Event>, w: nat)
    requires Enabled(g, Register(w)) && IsRun(Next(g, Register(w)), es)
    requires Enabled(After(Next(g, Register(w)), es), Wake(w))
    ensures exists i :: 0 <= i < |es| && es[i].Notify?
  {
    ToldByNotify(Next(g, Register(w)), es, w);
  }

  predicate Done(g: Gate, w: nat) { w in g.waiters && g.waiters[w].Returned? }

  /** A call of `wait` that has returned read the flag as set in that very step. */
  lemma {:induction false} ReturnedMeansObserved(g: Gate, es: seq<Event>, w: nat)
    requires IsRun(g, es) && !Done(g, w) && Done(After(g, es), w)
    ensures exists i :: 0 <= i < |es| && es[i] == Check(w) && IsRun(g, es[..i]) && After(g, es[..i]).ready
    decreases |es|
  {
    var h := Next(g, es[0]);
    assert es[..0] == [];
    if Done(h, w) {
      assert es[0] == Check(w) && After(g, es[..0]).ready;
    } else {
      ReturnedMeansObserved(h, es[1..], w);
      var i :| 0 <= i < |es[1..]| && es[1..][i] == Check(w) && IsRun(h, es[1..][..i]) && After(h, es[1..][..i]).ready;
      assert es[..i + 1][1..] == es[1..][..i];
      assert es[i + 1] == Check(w) && IsRun(g, es[..i + 1]) && After(g, es[..i + 1]).ready;
    }
  }

  // ---------------------------------------------------------------- progress while the gate stays open

  /** How many of its own steps a waiter can still need while the gate stays open. */
  function Rank(g: Gate, w: nat): nat {
    if w !in g.waiters then 0
    else match g.waiters[w]
      case Returned => 0
      case Registered(_) => 1
      case AtTop => 2
      case Parked(_) => 3
  }

  predicate StepOf(e: Event, w: nat) { e == Register(w) || e == Check(w) || e == Wake(w) || e == Drop(w) }

  function OwnSteps(es: seq<Event>, w: nat): nat {
    if es == [] then 0 else (if StepOf(es[0], w) && !es[0].Drop? then 1 else 0) + OwnSteps(es[1..], w)
  }

  /** The gate is open before every step of the run. */
  predicate StaysOpen(g: Gate, es: seq<Event>)
    requires IsRun(g, es)
    decreases |es|
  {
    es == [] || (g.ready && StaysOpen(Next(g, es[0]), es[1..]))
  }

  /** While the gate stays open, a waiter takes at most three more steps, whatever the others do. */
  lemma {:induction false} FewSteps(g: Gate, es: seq<Event>, w: nat)
    requires IsRun(g, es) && StaysOpen(g, es) && w in g.waiters && CallWait(w) !in es
    ensures Rank(After(g, es), w) + OwnSteps(es, w) <= Rank(g, w) <= 3
    decreases |es|
  {
    if es != [] {
      var h := Next(g, es[0]);
      assert es[0] != CallWait(w);
      if w in h.waiters {
        FewSteps(h, es[1..], w);
      } else {
        GoneTakesNoSteps(h, es[1..], w);
      }
    }
  }

  lemma {:induction false} GoneTakesNoSteps(g: Gate, es: seq<Event>, w: nat)
    requires IsRun(g, es) && w !in g.waiters && CallWait(w) !in es
    ensures OwnSteps(es, w) == 0 && w !in After(g, es).waiters
    decreases |es|
  {
    if es != [] {
      assert es[0] != CallWait(w);
      GoneTakesNoSteps(Next(g, es[0]), es[1..], w);
    }
  }

  /**
    Before an open gate a waiter that has not returned can step, or a call that opened the gate can mark it so that it
    can.
   */
  lemma NeverStuck(g: Gate, w: nat)
    requires Attended(g) && g.ready && w in g.waiters && !g.waiters[w].Returned?
    ensures || (exists e :: StepOf(e, w) && !e.Drop? && Enabled(g, e))
            || (exists s :: Announcing(g, s) && Enabled(g, Notify(s)) && Enabled(Next(g, Notify(s)), Wake(w)))
  {
    match g.waiters[w]
    case AtTop => assert StepOf(Register(w), w) && Enabled(g, Register(w));
    case Registered(_) => assert StepOf(Check(w), w) && Enabled(g, Check(w));
    case Parked(marked) =>
      if marked {
        assert StepOf(Wake(w), w) && Enabled(g, Wake(w));
      } else {
        assert Stranded(g, w);
        var s :| Announcing(g, s);
        assert Enabled(g, Notify(s)) && Enabled(Next(g, Notify(s)), Wake(w));
      }
  }

  /** Once every call that opened the gate has notified, a waiter alone reaches its return before an open gate. */
  lemma WaiterFinishes(g: Gate, w: nat)
    requires Attended(g) && g.ready && w in g.waiters && !g.waiters[w].Returned? && forall s :: !Announcing(g, s)
    ensures exists es ::
              && IsRun(g, es) && |es| == Rank(g, w)
              && (forall e :: e in es ==> StepOf(e, w)) && Done(After(g, es), w)
  {
    assert !Stranded(g, w);
    var es := match g.waiters[w]
      case Registered(_) => [Check(w)]
      case AtTop => [Register(w), Check(w)]
      case Parked(_) => [Wake(w), Register(w), Check(w)];
    RunsThrough(g, es, w);
  }

  lemma RunsThrough(g: Gate, es: seq<Event>, w: nat)
    requires g.ready && w in g.waiters
    requires || (g.waiters[w].Registered? && es == [Check(w)])
             || (g.waiters[w].AtTop? && es == [Register(w), Check(w)])
             || (g.waiters[w] == Parked(true) && es == [Wake(w), Register(w), Check(w)])
    ensures IsRun(g, es) && Done(After(g, es), w)
    decreases |es|
  {
    if |es| > 1 {
      RunsThrough(Next(g, es[0]), es[1..], w);
    } else {
      assert es[1..] == [];
    }
  }
}
