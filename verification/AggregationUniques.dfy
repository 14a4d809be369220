/**
  The daily unique counters over whole runs. A counter is overwritten, not added to, so what it holds is
  the count of the last completed window that saw the day, and not always the count of the day.
 */
module AggregationUniques {
  import opened Common
  import opened Aggregation
  import opened AggregationRuns
  import opened AggregationTimeline

  predicate DistinctDays(us: seq<Unique>) {
    forall i, j :: 0 <= i < j < |us| ==> us[i].key != us[j].key
  }

  /** The count a list of rows holds for a day. */
  function RowFor(us: seq<Unique>, d: DayKey): Option<int> {
    if us == [] then None
    else if us[|us| - 1].key == d then Some(us[|us| - 1].uniq)
    else RowFor(us[..|us| - 1], d)
  }

  function Held(uniqd: map<DayKey, int>, d: DayKey): Option<int> {
    if d in uniqd then Some(uniqd[d]) else None
  }

  function Else(a: Option<int>, b: Option<int>): Option<int> { if a.Some? then a else b }

  /** The count of the last window with a row for the day, or what was held before. */
  function LastCount(query: Query, passes: seq<Window>, d: DayKey, before: Option<int>): Option<int> {
    if passes == [] then before
    else
      var p := passes[|passes| - 1];
      Else(RowFor(query(p.windowFrom, p.windowTo).uniques, d), LastCount(query, passes[..|passes| - 1], d, before))
  }

  // ---------------------------------------------------------------- writes of a slice

  lemma {:induction false} RowForJoins(a: seq<Unique>, b: seq<Unique>, d: DayKey)
    ensures RowFor(a + b, d) == Else(RowFor(b, d), RowFor(a, d))
    decreases |b|
  {
    if b == [] {
      assert a + b == a;
    } else {
      assert (a + b)[..|a + b| - 1] == a + b[..|b| - 1];
      RowForJoins(a, b[..|b| - 1], d);
    }
  }

  lemma {:induction false} NoRowIff(us: seq<Unique>, d: DayKey)
    ensures RowFor(us, d).None? <==> forall i :: 0 <= i < |us| ==> us[i].key != d
  {
    if us != [] {
      NoRowIff(us[..|us| - 1], d);
    }
  }

  /** A day has its row on one side of a cut. */
  lemma RowOnOneSide(us: seq<Unique>, k: nat, d: DayKey)
    requires DistinctDays(us) && k <= |us|
    ensures RowFor(us[..k], d).None? || RowFor(us[k..], d).None?
    ensures RowFor(us, d) == Else(RowFor(us[k..], d), RowFor(us[..k], d))
  {
    hide RowFor;
    assert us == us[..k] + us[k..];
    RowForJoins(us[..k], us[k..], d);
    NoRowIff(us[..k], d);
    NoRowIff(us[k..], d);
    if RowFor(us[..k], d).Some? {
      var i :| 0 <= i < k && us[..k][i].key == d;
      forall j | 0 <= j < |us| - k ensures us[k..][j].key != d {
        assert us[i].key != us[k + j].key;
      }
    }
  }

  lemma {:induction false} KeepUniques(kv: Kv, ops: seq<Op>)
    requires forall i :: 0 <= i < |ops| ==> !ops[i].PutUnique?
    ensures ApplyAll(kv, ops).uniqd == kv.uniqd
  {
    if ops != [] {
      KeepUniques(kv, ops[..|ops| - 1]);
    }
  }

  /** Writing rows overwrites the counters of their days. */
  lemma {:induction false} WritesOverwrite(kv: Kv, us: seq<Unique>, d: DayKey)
    ensures Held(ApplyAll(kv, UniqueOps(us)).uniqd, d) == Else(RowFor(us, d), Held(kv.uniqd, d))
  {
    if us != [] {
      var init := us[..|us| - 1];
      WritesOverwrite(kv, init, d);
      assert UniqueOps(us)[..|us| - 1] == UniqueOps(init);
    }
  }

  /** How many rows of the current slice were written. */
  function Reached(rows: Rows, c: Cursor, budget: nat): nat { Min(budget, |Work(rows, c)|) }

  lemma CloseKeepsUniques(kv: Kv, rows: Rows, c: Cursor, m: nat)
    requires m <= |Close(rows, c)|
    ensures ApplyAll(kv, Close(rows, c)[..m]).uniqd == kv.uniqd
  {
    KeepUniques(kv, Close(rows, c)[..m]);
  }

  lemma PrefixUniqd(kv: Kv, rows: Rows, c: Cursor, n: nat)
    requires n <= |Work(rows, c) + Close(rows, c)|
    ensures ApplyAll(kv, (Work(rows, c) + Close(rows, c))[..n]).uniqd
         == ApplyAll(kv, Work(rows, c)[..Reached(rows, c, n)]).uniqd
  {
    hide Work, Close, ApplyAll;
    var work, close := Work(rows, c), Close(rows, c);
    if n > |work| {
      assert (work + close)[..n] == work[..|work|] + close[..n - |work|];
      ApplyAllSplit(kv, work[..|work|], close[..n - |work|]);
      CloseKeepsUniques(ApplyAll(kv, work[..|work|]), rows, c, n - |work|);
    } else {
      assert (work + close)[..n] == work[..n];
    }
  }

  lemma WorkOverwrites(kv: Kv, rows: Rows, c: Cursor, m: nat, d: DayKey)
    requires c.offset <= PhaseLength(rows, c.phase) && m <= |Work(rows, c)|
    ensures c.phase == Uniques ==> c.offset + m <= |rows.uniques|
    ensures Held(ApplyAll(kv, Work(rows, c)[..m]).uniqd, d)
         == if c.phase == Uniques then Else(RowFor(rows.uniques[c.offset..c.offset + m], d), Held(kv.uniqd, d))
             else Held(kv.uniqd, d)
  {
    hide ApplyAll, RowFor;
    if c.phase == Uniques {
      assert Work(rows, c)[..m] == UniqueOps(rows.uniques[c.offset..c.offset + m]);
      WritesOverwrite(kv, rows.uniques[c.offset..c.offset + m], d);
    } else {
      KeepUniques(kv, Work(rows, c)[..m]);
    }
  }

  /** What one trigger, interrupted anywhere, does to the counter of a day. */
  lemma TriggerOverwrites(kv: Kv, query: Query, t: Trigger, d: DayKey)
    requires GoodCell(query, kv.cell)
    ensures var c := Resume(kv, t.now, t.fromOverride);
            var rows := RowsOf(query, c);
            var held := Held(AfterTrigger(kv, query, t).uniqd, d);
            if c.phase == Uniques then
              && c.offset + Reached(rows, c, t.budget) <= |rows.uniques|
              && held == Else(RowFor(rows.uniques[c.offset..c.offset + Reached(rows, c, t.budget)], d),
                 Held(kv.uniqd, d))
            else held == Held(kv.uniqd, d)
  {
    hide AfterTrigger, ApplyAll, RowFor, Work, Close, GoodCell;
    AfterTriggerCells(kv, query, t);
    var c := Resume(kv, t.now, t.fromOverride);
    var rows := RowsOf(query, c);
    var n := Min(t.budget, |TriggerOps(query, c)|);
    PrefixUniqd(kv, rows, c, n);
    WorkOverwrites(kv, rows, c, Reached(rows, c, n), d);
  }

  // ---------------------------------------------------------------- the invariant

  /** With k rows of a window settled: those are written, and any later ones may be. */
  predicate CurrentAt(us: seq<Unique>, k: nat, held: Option<int>, last: Option<int>, d: DayKey)
    requires k <= |us|
  {
    if RowFor(us[..k], d).Some? then held == RowFor(us[..k], d)
    else held == last || (RowFor(us[k..], d).Some? && held == RowFor(us[k..], d))
  }

  /** The counter of a day holds the last completed window's count, except while a pass is in its last phase. */
  predicate Current(w: World, query: Query, d: DayKey, before: Option<int>)
    requires GoodCell(query, w.kv.cell)
  {
    var held, last := Held(w.kv.uniqd, d), LastCount(query, w.passes, d, before);
    if w.kv.cell.Saved? && w.kv.cell.cursor.phase == Uniques
    then CurrentAt(RowsOf(query, w.kv.cell.cursor).uniques, w.kv.cell.cursor.offset, held, last, d)
    else held == last
  }

  lemma CutAgain(us: seq<Unique>, k: nat, m: nat, d: DayKey)
    requires DistinctDays(us) && k + m <= |us|
    ensures RowFor(us[..k + m], d) == Else(RowFor(us[k..k + m], d), RowFor(us[..k], d))
    ensures RowFor(us[k..], d) == Else(RowFor(us[k + m..], d), RowFor(us[k..k + m], d))
    ensures RowFor(us[k..k + m], d).None? || RowFor(us[k + m..], d).None?
  {
    hide RowFor;
    assert us[..k + m] == us[..k] + us[k..k + m] && us[k..] == us[k..k + m] + us[k + m..];
    RowForJoins(us[..k], us[k..k + m], d);
    RowForJoins(us[k..k + m], us[k + m..], d);
    RowOnOneSide(us, k + m, d);
  }

  /**
    Writing the next m rows keeps the invariant whether or not the cursor then moves, and the last row completes the
    window.
   */
  lemma CurrentMoves(us: seq<Unique>, k: nat, m: nat, held: Option<int>, last: Option<int>, d: DayKey)
    requires DistinctDays(us) && k + m <= |us| && CurrentAt(us, k, held, last, d)
    ensures var after := Else(RowFor(us[k..k + m], d), held);
            && CurrentAt(us, k, after, last, d) && CurrentAt(us, k + m, after, last, d)
            && (k + m == |us| ==> after == Else(RowFor(us, d), last))
  {
    hide RowFor;
    RowOnOneSide(us, k, d);
    CutAgain(us, k, m, d);
    if k + m == |us| {
      assert us[k..k + m] == us[k..] && us[k + m..] == [];
      NoRowIff(us[k + m..], d);
    }
  }

  lemma NothingBefore(us: seq<Unique>, held: Option<int>, d: DayKey)
    ensures CurrentAt(us, 0, held, held, d)
  {
    assert us[..0] == [];
  }

  lemma StepCurrent(w: World, query: Query, t: Trigger, d: DayKey, before: Option<int>)
    requires GoodCell(query, w.kv.cell) && Current(w, query, d, before)
    requires forall f, u :: DistinctDays(query(f, u).uniques)
    ensures GoodCell(query, Step(w, query, t).kv.cell) && Current(Step(w, query, t), query, d, before)
  {
    hide AfterTrigger, RowFor, Work, CurrentAt, ApplyAll, Entries, DistinctDays;
    AfterTriggerCells(w.kv, query, t);
    TriggerOverwrites(w.kv, query, t, d);
    var c := Resume(w.kv, t.now, t.fromOverride);
    var us := RowsOf(query, c).uniques;
    var held, last := Held(w.kv.uniqd, d), LastCount(query, w.passes, d, before);
    if c.phase == Uniques {
      CurrentMoves(us, c.offset, Reached(RowsOf(query, c), c, t.budget), held, last, d);
      if Closing(RowsOf(query, c), c) {
        LastCountStep(query, w.passes, Window(c.windowFrom, c.windowTo), d, before);
      }
    } else {
      NothingBefore(us, held, d);
    }
  }

  lemma LastCountStep(query: Query, passes: seq<Window>, p: Window, d: DayKey, before: Option<int>)
    ensures LastCount(query, passes + [p], d, before)
         == Else(RowFor(query(p.windowFrom, p.windowTo).uniques, d), LastCount(query, passes, d, before))
  {
    assert (passes + [p])[..|passes + [p]| - 1] == passes;
  }

  /**
    In every run, interrupted anywhere, a counter holds the count of the last completed window with a row for its day.
   */
  lemma {:induction false} CounterIsLastCount(kv: Kv, query: Query, ts: seq<Trigger>, d: DayKey)
    requires !kv.cell.Saved?
    requires forall f, u :: DistinctDays(query(f, u).uniques)
    ensures var w := Run(Start(kv), query, ts);
            && GoodCell(query, w.kv.cell) && Current(w, query, d, Held(kv.uniqd, d))
            && (!w.kv.cell.Saved? ==> Held(w.kv.uniqd, d) == LastCount(query, w.passes, d, Held(kv.uniqd, d)))
  {
    hide Step;
    if ts != [] {
      var init := ts[..|ts| - 1];
      CounterIsLastCount(kv, query, init, d);
      StepCurrent(Run(Start(kv), query, init), query, ts[|ts| - 1], d, Held(kv.uniqd, d));
    }
  }

  // ---------------------------------------------------------------- a log of visits

  const HOUR := 3600

  /** An event with an identity. */
  datatype Visit = Visit(time: int, kind: string, plugin: string, identity: string)

  /** An identity counts once in an hour. */
  datatype Sight = Sight(hour: int, identity: string)

  predicate IsOn(v: Visit, d: DayKey, dayOf: int -> string) {
    v.kind == d.kind && v.plugin == d.plugin && dayOf(v.time / HOUR) == d.day
  }

  predicate Within(v: Visit, after: int, until: int) { after < v.time <= until }

  function SightOf(v: Visit): Sight { Sight(v.time / HOUR, v.identity) }

  /** What the hourly buckets of a day hold for `after < time <= until`; their sum is its size. */
  function Seen(log: seq<Visit>, d: DayKey, dayOf: int -> string, after: int, until: int): set<Sight> {
    set i | 0 <= i < |log| && IsOn(log[i], d, dayOf) && Within(log[i], after, until) :: SightOf(log[i])
  }

  function Counted(seen: set<Sight>): Option<int> { if seen == {} then None else Some(|seen|) }

  /** The queries report the log: one row for each day that was seen, with the sum of its hourly buckets. */
  ghost predicate ReportsDays(query: Query, log: seq<Visit>, dayOf: int -> string) {
    && (forall f, u :: DistinctDays(query(f, u).uniques))
    && (forall f, u, d :: f <= u ==> RowFor(query(f, u).uniques, d) == Counted(Seen(log, d, dayOf, f, u)))
  }

  /** The last window that saw the day. */
  function LastSeen(log: seq<Visit>, d: DayKey, dayOf: int -> string, passes: seq<Window>): Option<Window> {
    if passes == [] then None
    else
      var p := passes[|passes| - 1];
      if Seen(log, d, dayOf, p.windowFrom, p.windowTo) != {} then Some(p)
          else LastSeen(log, d, dayOf, passes[..|passes| - 1])
  }

  lemma {:induction false} LastCountIsLastSeen(query: Query, log: seq<Visit>, dayOf: int -> string, passes: seq<Window>,
      d: DayKey, before: Option<int>, first: int, last: int)
    requires ReportsDays(query, log, dayOf) && Tiles(passes, first, last)
    ensures first <= last
    ensures var p := LastSeen(log, d, dayOf, passes);
            && LastCount(query, passes, d, before)
               == (if p.None? then before else Counted(Seen(log, d, dayOf, p.value.windowFrom, p.value.windowTo)))
            && (p.Some? ==>
                  && first <= p.value.windowFrom <= p.value.windowTo <= last
                  && Seen(log, d, dayOf, p.value.windowFrom, p.value.windowTo) != {})
  {
    hide Seen, RowFor;
    if passes != [] {
      var p := passes[|passes| - 1];
      LastCountIsLastSeen(query, log, dayOf, passes[..|passes| - 1], d, before, first, p.windowFrom);
      assert RowFor(query(p.windowFrom, p.windowTo).uniques, d)
          == Counted(Seen(log, d, dayOf, p.windowFrom, p.windowTo));
    }
  }

  /**
    Whenever no pass is in progress, a counter holds the bucket sum of the last completed window that saw the day, and
    no other.
   */
  lemma CounterIsLastWindow(kv: Kv, query: Query, log: seq<Visit>, dayOf: int -> string, ts: seq<Trigger>, d: DayKey)
    requires !kv.cell.Saved? && ScheduledFrom(ts, Mark(kv)) && ReportsDays(query, log, dayOf)
    requires !Run(Start(kv), query, ts).kv.cell.Saved?
    ensures var w := Run(Start(kv), query, ts);
            var p := LastSeen(log, d, dayOf, w.passes);
            && Held(w.kv.uniqd, d) == (if p.None? then Held(kv.uniqd, d)
               else Some(|Seen(log, d, dayOf, p.value.windowFrom, p.value.windowTo)|))
            && (p.Some? ==> Mark(kv) <= p.value.windowFrom <= p.value.windowTo <= Mark(w.kv))
  {
    hide Seen, RowFor, Run;
    var w := Run(Start(kv), query, ts);
    PassesTile(kv, query, ts);
    CounterIsLastCount(kv, query, ts, d);
    LastCountIsLastSeen(query, log, dayOf, w.passes, d, Held(kv.uniqd, d), Mark(kv), Mark(w.kv));
  }

  lemma SameSizeMeansSame(a: set<Sight>, b: set<Sight>)
    requires a <= b
    ensures |a| == |b| <==> a == b
  {
    assert b == a + (b - a) && a !! (b - a);
    assert |b| == |a| + |b - a|;
  }

  /** Everyone seen on the day was also seen, in the same hour, in the window. */
  predicate SeesAll(log: seq<Visit>, d: DayKey, dayOf: int -> string, first: int, last: int, p: Window) {
    forall i :: 0 <= i < |log| && IsOn(log[i], d, dayOf) && Within(log[i], first, last) ==>
        SightOf(log[i]) in Seen(log, d, dayOf, p.windowFrom, p.windowTo)
  }

  lemma SeenWholeIff(log: seq<Visit>, d: DayKey, dayOf: int -> string, first: int, last: int, p: Window)
    requires first <= p.windowFrom && p.windowTo <= last
    ensures |Seen(log, d, dayOf, p.windowFrom, p.windowTo)| == |Seen(log, d, dayOf, first, last)|
            <==> SeesAll(log, d, dayOf, first, last, p)
  {
    var part, whole := Seen(log, d, dayOf, p.windowFrom, p.windowTo), Seen(log, d, dayOf, first, last);
    forall x | x in part ensures x in whole {
      var i :| 0 <= i < |log| && IsOn(log[i], d, dayOf) && Within(log[i], p.windowFrom, p.windowTo)
          && x == SightOf(log[i]);
      assert Within(log[i], first, last);
    }
    SameSizeMeansSame(part, whole);
    assert SeesAll(log, d, dayOf, first, last, p) <==> whole <= part;
  }

  /**
    The counter is the count of the whole day (since the first watermark) if and only if the last window
    that saw the day saw everyone who was seen on it, in every hour they were seen.
   */
  lemma WholeDayIff(kv: Kv, query: Query, log: seq<Visit>, dayOf: int -> string, ts: seq<Trigger>, d: DayKey, p: Window)
    requires !kv.cell.Saved? && ScheduledFrom(ts, Mark(kv)) && ReportsDays(query, log, dayOf)
    requires !Run(Start(kv), query, ts).kv.cell.Saved?
             && LastSeen(log, d, dayOf, Run(Start(kv), query, ts).passes) == Some(p)
    ensures var w := Run(Start(kv), query, ts);
            Held(w.kv.uniqd, d) == Some(|Seen(log, d, dayOf, Mark(kv), Mark(w.kv))|)
            <==> SeesAll(log, d, dayOf, Mark(kv), Mark(w.kv), p)
  {
    hide Seen, RowFor, Run, SeesAll, LastSeen;
    CounterIsLastWindow(kv, query, log, dayOf, ts, d);
    SeenWholeIff(log, d, dayOf, Mark(kv), Mark(Run(Start(kv), query, ts).kv), p);
  }

  /** No hour of the day is cut by an end of the window. */
  predicate CutsNoHour(log: seq<Visit>, d: DayKey, dayOf: int -> string, p: Window) {
    forall i, j ::
      && 0 <= i < |log| && 0 <= j < |log| && IsOn(log[i], d, dayOf) && IsOn(log[j], d, dayOf)
      && log[i].time / HOUR == log[j].time / HOUR ==>
      (Within(log[i], p.windowFrom, p.windowTo) <==> Within(log[j], p.windowFrom, p.windowTo))
  }

  /** Where the window cuts no hour, it sees all of a day exactly when it holds every visit of the day. */
  lemma UncutSeesAllIff(log: seq<Visit>, d: DayKey, dayOf: int -> string, first: int, last: int, p: Window)
    requires CutsNoHour(log, d, dayOf, p)
    ensures SeesAll(log, d, dayOf, first, last, p)
       <==> forall i :: 0 <= i < |log| && IsOn(log[i], d, dayOf) && Within(log[i], first, last) ==>
                          Within(log[i], p.windowFrom, p.windowTo)
  {
    forall i | 0 <= i < |log| && IsOn(log[i], d, dayOf)
        && SightOf(log[i]) in Seen(log, d, dayOf, p.windowFrom, p.windowTo)
      ensures Within(log[i], p.windowFrom, p.windowTo)
    {
      var j :| 0 <= j < |log| && IsOn(log[j], d, dayOf) && Within(log[j], p.windowFrom, p.windowTo)
          && SightOf(log[i]) == SightOf(log[j]);
    }
  }

  lemma {:induction false} TileBounds(passes: seq<Window>, first: int, last: int, j: nat)
    requires Tiles(passes, first, last) && j < |passes|
    ensures first <= passes[j].windowFrom <= passes[j].windowTo <= last
    decreases |passes|
  {
    var init, p := passes[..|passes| - 1], passes[|passes| - 1];
    if j < |init| {
      TileBounds(init, first, p.windowFrom, j);
    } else {
      TilesRise(init, first, p.windowFrom);
    }
  }

  lemma {:induction false} TilesRise(passes: seq<Window>, first: int, last: int)
    requires Tiles(passes, first, last)
    ensures first <= last
  {
    if passes != [] {
      TilesRise(passes[..|passes| - 1], first, passes[|passes| - 1].windowFrom);
    }
  }

  predicate Holds(p: Window, time: int) { p.windowFrom < time <= p.windowTo }

  /** A time in range lies in exactly one tile. */
  lemma {:induction false} TileOf(passes: seq<Window>, first: int, last: int, time: int) returns (j: nat)
    requires Tiles(passes, first, last) && first < time <= last
    ensures j < |passes| && Holds(passes[j], time)
    ensures forall k :: 0 <= k < |passes| && Holds(passes[k], time) ==> k == j
  {
    var init, p := passes[..|passes| - 1], passes[|passes| - 1];
    if Holds(p, time) {
      j := |passes| - 1;
      forall k | 0 <= k < |init| ensures !Holds(passes[k], time) {
        TileBounds(init, first, p.windowFrom, k);
      }
    } else {
      j := TileOf(init, first, p.windowFrom, time);
      assert forall k :: 0 <= k < |init| ==> passes[k] == init[k];
    }
  }

  lemma {:induction false} LastSeenIsPass(log: seq<Visit>, d: DayKey, dayOf: int -> string, passes: seq<Window>)
    requires LastSeen(log, d, dayOf, passes).Some?
    ensures LastSeen(log, d, dayOf, passes).value in passes
  {
    hide Seen;
    var p := passes[|passes| - 1];
    if Seen(log, d, dayOf, p.windowFrom, p.windowTo) == {} {
      LastSeenIsPass(log, d, dayOf, passes[..|passes| - 1]);
    }
  }

  /** No completed window but one saw the day. */
  predicate OnlySeenIn(log: seq<Visit>, d: DayKey, dayOf: int -> string, passes: seq<Window>, p: Window) {
    forall q :: q in passes && q != p ==> Seen(log, d, dayOf, q.windowFrom, q.windowTo) == {}
  }

  lemma SeesAllIffOnlySeen(log: seq<Visit>, d: DayKey, dayOf: int -> string, passes: seq<Window>, first: int, last: int,
      p: Window)
    requires Tiles(passes, first, last) && p in passes && CutsNoHour(log, d, dayOf, p)
    ensures SeesAll(log, d, dayOf, first, last, p) <==> OnlySeenIn(log, d, dayOf, passes, p)
  {
    UncutSeesAllIff(log, d, dayOf, first, last, p);
    hide SeesAll, Tiles, CutsNoHour;
    if SeesAll(log, d, dayOf, first, last, p) {
      forall q | q in passes && q != p ensures Seen(log, d, dayOf, q.windowFrom, q.windowTo) == {} {
        OtherTileIsEmpty(log, d, dayOf, passes, first, last, p, q);
      }
    }
    if OnlySeenIn(log, d, dayOf, passes, p) {
      forall i | 0 <= i < |log| && IsOn(log[i], d, dayOf) && Within(log[i], first, last)
        ensures Within(log[i], p.windowFrom, p.windowTo)
      {
        var j := TileOf(passes, first, last, log[i].time);
        var q := passes[j];
        assert SightOf(log[i]) in Seen(log, d, dayOf, q.windowFrom, q.windowTo);
      }
    }
  }

  lemma OtherTileIsEmpty(log: seq<Visit>, d: DayKey, dayOf: int -> string, passes: seq<Window>, first: int, last: int,
      p: Window, q: Window)
    requires Tiles(passes, first, last) && p in passes && q in passes && q != p
    requires forall i :: 0 <= i < |log| && IsOn(log[i], d, dayOf) && Within(log[i], first, last) ==>
                           Within(log[i], p.windowFrom, p.windowTo)
    ensures Seen(log, d, dayOf, q.windowFrom, q.windowTo) == {}
  {
    hide Tiles;
    var k :| 0 <= k < |passes| && passes[k] == q;
    var l :| 0 <= l < |passes| && passes[l] == p;
    TileBounds(passes, first, last, k);
    forall i | 0 <= i < |log| && IsOn(log[i], d, dayOf) ensures !Within(log[i], q.windowFrom, q.windowTo) {
      if first < log[i].time <= last {
        var j := TileOf(passes, first, last, log[i].time);
        assert Holds(passes[l], log[i].time) && l == j;
        assert k != j ==> !Holds(passes[k], log[i].time);
      }
    }
  }

  /**
    Where the last window that saw the day cuts none of its hours, the counter is the count of the whole day
    if and only if no other completed window saw the day.
   */
  lemma UncutWholeDayIff(kv: Kv, query: Query, log: seq<Visit>, dayOf: int -> string, ts: seq<Trigger>, d: DayKey,
      p: Window)
    requires !kv.cell.Saved? && ScheduledFrom(ts, Mark(kv)) && ReportsDays(query, log, dayOf)
             && CutsNoHour(log, d, dayOf, p)
    requires var w := Run(Start(kv), query, ts); !w.kv.cell.Saved? && LastSeen(log, d, dayOf, w.passes) == Some(p)
    ensures var w := Run(Start(kv), query, ts);
            Held(w.kv.uniqd, d) == Some(|Seen(log, d, dayOf, Mark(kv), Mark(w.kv))|)
            <==> OnlySeenIn(log, d, dayOf, w.passes, p)
  {
    hide Seen, Run, SeesAll, CutsNoHour, OnlySeenIn, ReportsDays, LastSeen, Tiles;
    var w := Run(Start(kv), query, ts);
    PassesTile(kv, query, ts);
    LastSeenIsPass(log, d, dayOf, w.passes);
    WholeDayIff(kv, query, log, dayOf, ts, d, p);
    SeesAllIffOnlySeen(log, d, dayOf, w.passes, Mark(kv), Mark(w.kv), p);
  }

  // ---------------------------------------------------------------- a day that is overwritten

  lemma NothingToDo(rows: Rows, c: Cursor)
    requires rows.counts == [] && c.phase != Uniques && c.offset <= PhaseLength(rows, c.phase)
    ensures Work(rows, c) == [] && !Closing(rows, c)
    ensures Advanced(rows, c) == c.(phase := if c.phase == Counts then PluginTotals else Uniques, offset := 0)
  {
  }

  /** A trigger whose phase has nothing to do moves to the next phase. */
  lemma EmptyPhase(w: World, query: Query, t: Trigger)
    requires GoodCell(query, w.kv.cell) && t.budget >= FULL_BUDGET
    requires var c := Resume(w.kv, t.now, t.fromOverride); c.phase != Uniques && RowsOf(query, c).counts == []
    ensures var c, r := Resume(w.kv, t.now, t.fromOverride), Step(w, query, t);
            && r.kv.cell.Saved? && GoodCell(query, r.kv.cell) && r.passes == w.passes && Mark(r.kv) == Mark(w.kv)
            && r.kv.cell.cursor == Grown(c.(phase := if c.phase == Counts then PluginTotals else Uniques, offset := 0))
  {
    hide AfterTrigger, ApplyAll, Work, Closing, Advanced, PhaseLength, Entries;
    AfterTriggerCells(w.kv, query, t);
    NothingToDo(RowsOf(query, Resume(w.kv, t.now, t.fromOverride)), Resume(w.kv, t.now, t.fromOverride));
  }

  lemma ShortLastPhase(w: World, query: Query, t: Trigger)
    requires w.kv.cell.Saved? && GoodCell(query, w.kv.cell) && t.budget >= FULL_BUDGET
    requires var c := w.kv.cell.cursor; c.phase == Uniques && |RowsOf(query, c).uniques| <= MIN_CHUNK
    ensures var c, r := w.kv.cell.cursor, Step(w, query, t);
            r.kv.cell == Empty && r.passes == w.passes + [Window(c.windowFrom, c.windowTo)] && Mark(r.kv) == c.windowTo
  {
    hide AfterTrigger, ApplyAll;
    AfterTriggerCells(w.kv, query, t);
  }

  /** Three uninterrupted triggers make a pass over a window with no counts and few days. */
  lemma ShortPass(w: World, query: Query, t: Trigger)
    requires !w.kv.cell.Saved? && t.fromOverride == None && t.budget >= FULL_BUDGET
    requires query(Mark(w.kv), t.now).counts == [] && |query(Mark(w.kv), t.now).uniques| <= MIN_CHUNK
    ensures var r := Step(Step(Step(w, query, t), query, t), query, t);
            r.kv.cell == Empty && r.passes == w.passes + [Window(Mark(w.kv), t.now)] && Mark(r.kv) == t.now
  {
    hide Step;
    EmptyPhase(w, query, t);
    EmptyPhase(Step(w, query, t), query, t);
    ShortLastPhase(Step(Step(w, query, t), query, t), query, t);
  }

  lemma RunThrice(w: World, query: Query, ts: seq<Trigger>, t: Trigger)
    ensures Run(w, query, ts + [t, t, t]) == Step(Step(Step(Run(w, query, ts), query, t), query, t), query, t)
  {
    hide Step;
    assert (ts + [t, t, t])[..|ts| + 2] == ts + [t, t] && (ts + [t, t])[..|ts| + 1] == ts + [t]
        && (ts + [t])[..|ts|] == ts;
    assert Run(w, query, ts + [t]) == Step(Run(w, query, ts), query, t);
    assert Run(w, query, ts + [t, t]) == Step(Run(w, query, ts + [t]), query, t);
  }

  const DAY := DayKey("inst", "p", "day")
  const VISITS := [Visit(1, "inst", "p", "a"), Visit(1, "inst", "p", "b"), Visit(2, "inst", "p", "c")]

  function SameDay(hour: int): string { "day" }

  /** The query over a log that holds visits of one day only. */
  function RowsOfDay(log: seq<Visit>, f: int, u: int): Rows {
    var seen := Seen(log, DAY, SameDay, f, u);
    Rows([], if seen == {} then [] else [Unique(DAY, |seen|)])
  }

  lemma DayIsReported(log: seq<Visit>)
    requires forall i :: 0 <= i < |log| ==> IsOn(log[i], DAY, SameDay)
    ensures ReportsDays((f, u) => RowsOfDay(log, f, u), log, SameDay)
  {
    forall f: int, u: int, d | f <= u
      ensures RowFor(RowsOfDay(log, f, u).uniques, d) == Counted(Seen(log, d, SameDay, f, u))
    {
      if d != DAY {
        assert forall i :: 0 <= i < |log| ==> !IsOn(log[i], d, SameDay);
        assert Seen(log, d, SameDay, f, u) == {};
      }
      var us := RowsOfDay(log, f, u).uniques;
      assert us != [] ==> us[..0] == [];
    }
  }

  lemma SeenOfVisits()
    ensures Seen(VISITS, DAY, SameDay, 0, 1) == {Sight(0, "a"), Sight(0, "b")}
    ensures Seen(VISITS, DAY, SameDay, 1, 2) == {Sight(0, "c")}
    ensures Seen(VISITS, DAY, SameDay, 0, 2) == {Sight(0, "a"), Sight(0, "b"), Sight(0, "c")}
  {
    assert forall i :: 0 <= i < 3 ==> IsOn(VISITS[i], DAY, SameDay);
    assert SightOf(VISITS[0]) == Sight(0, "a") && SightOf(VISITS[1]) == Sight(0, "b")
        && SightOf(VISITS[2]) == Sight(0, "c");
  }

  lemma TwoShortPasses(query: Query, first: Trigger, second: Trigger)
    requires first.fromOverride == None == second.fromOverride && first.budget >= FULL_BUDGET
             && second.budget >= FULL_BUDGET
    requires query(EPOCH, first.now).counts == [] && |query(EPOCH, first.now).uniques| <= MIN_CHUNK
    requires query(first.now, second.now).counts == [] && |query(first.now, second.now).uniques| <= MIN_CHUNK
    ensures var w := Run(Start(EmptyKv()), query, [] + [first, first, first] + [second, second, second]);
            w.passes == [Window(EPOCH, first.now), Window(first.now, second.now)] && w.kv.cell == Empty
  {
    hide Step;
    var start := Start(EmptyKv());
    RunThrice(start, query, [], first);
    ShortPass(start, query, first);
    var half := [] + [first, first, first];
    RunThrice(start, query, half, second);
    hide Run;
    ShortPass(Run(start, query, half), query, second);
  }

  lemma LastOfTwo(query: Query, a: Window, b: Window, d: DayKey, before: Option<int>)
    requires RowFor(query(b.windowFrom, b.windowTo).uniques, d).Some?
    ensures LastCount(query, [a, b], d, before) == RowFor(query(b.windowFrom, b.windowTo).uniques, d)
  {
  }

  /**
    Two machines are seen, then one more on the same day: two uninterrupted passes leave the counter at one, not
    three.
   */
  lemma LaterWindowOverwrites()
    ensures var query := (f, u) => RowsOfDay(VISITS, f, u);
            var first, second := Trigger(1, None, FULL_BUDGET, true), Trigger(2, None, FULL_BUDGET, true);
            var w := Run(Start(EmptyKv()), query, [] + [first, first, first] + [second, second, second]);
            && ReportsDays(query, VISITS, SameDay) && w.passes == [Window(0, 1), Window(1, 2)] && !w.kv.cell.Saved?
            && Held(w.kv.uniqd, DAY) == Some(1) && |Seen(VISITS, DAY, SameDay, 0, 2)| == 3
  {
    hide Run, Seen, ReportsDays, RowFor, LastCount, Held;
    var query := (f, u) => RowsOfDay(VISITS, f, u);
    var first, second := Trigger(1, None, FULL_BUDGET, true), Trigger(2, None, FULL_BUDGET, true);
    var ts := [] + [first, first, first] + [second, second, second];
    assert forall i :: 0 <= i < |VISITS| ==> IsOn(VISITS[i], DAY, SameDay);
    DayIsReported(VISITS);
    SeenOfVisits();
    TwoShortPasses(query, first, second);
    Reported(query, VISITS, DAY, 1, 2);
    LastOfTwo(query, Window(0, 1), Window(1, 2), DAY, Held(EmptyKv().uniqd, DAY));
    CounterIsLastCount(EmptyKv(), query, ts, DAY);
  }

  lemma Reported(query: Query, log: seq<Visit>, d: DayKey, f: int, u: int)
    requires ReportsDays(query, log, SameDay) && f <= u
    ensures RowFor(query(f, u).uniques, d) == Counted(Seen(log, d, SameDay, f, u))
    ensures forall g, v :: DistinctDays(query(g, v).uniques)
  {
  }
}
