/**
  The window of every pass, and what a trigger answers. A pass belongs to the trigger that opened it:
  that trigger's clock ends the window, and its start override, if it has one, begins it.
 */
module AggregationWindows {
  import opened Common
  import opened Aggregation
  import opened AggregationRuns

  /** The window that a trigger opens when everything up to `mark` is archived. */
  predicate Opens(w: Window, t: Trigger, mark: int) {
    && w.windowTo == t.now
    && w.windowFrom == match t.fromOverride case Some(f) => f case None => mark
  }

  /** The triggers that find no saved cursor and leave one. */
  function Openings(w: World, query: Query, ts: seq<Trigger>): seq<nat> {
    if ts == [] then []
    else
      var init := ts[..|ts| - 1];
      Openings(w, query, init) +
      if !Run(w, query, init).kv.cell.Saved? && Run(w, query, ts).kv.cell.Saved? then [|init|] else []
  }

  /** Where the window of pass `i` begins without an override: at the end of the pass before it. */
  function EndBefore(watermark: Option<int>, passes: seq<Window>, i: nat): int
    requires i <= |passes|
  {
    if i > 0 then passes[i - 1].windowTo else match watermark case Some(t) => t case None => 0
  }

  function WindowOf(c: Cursor): Window { Window(c.windowFrom, c.windowTo) }

  // ---------------------------------------------------------------- one trigger

  /** A trigger that finds no cursor saves one for the window it opens, or leaves no trace but re-run additions. */
  lemma OpeningStep(w: World, query: Query, t: Trigger)
    requires !w.kv.cell.Saved?
    ensures var r := Step(w, query, t);
            && GoodCell(query, r.kv.cell) && r.passes == w.passes && r.kv.watermark == w.kv.watermark
            && (r.kv.cell.Saved? ==> Opens(WindowOf(r.kv.cell.cursor), t, EndBefore(w.kv.watermark, [], 0)))
            && (t.budget >= FULL_BUDGET ==> r.kv.cell.Saved?)
  {
    hide ApplyAll, Work, Entries, AfterTrigger;
    AfterTriggerCells(w.kv, query, t);
  }

  /** A trigger that finds a cursor keeps its window, whatever its own clock and override, until the pass is closed. */
  lemma ContinuingStep(w: World, query: Query, t: Trigger)
    requires w.kv.cell.Saved? && GoodCell(query, w.kv.cell)
    ensures var r := Step(w, query, t);
            var p := WindowOf(w.kv.cell.cursor);
            && GoodCell(query, r.kv.cell)
            && (r.kv.cell.Saved? ==> r.passes == w.passes && WindowOf(r.kv.cell.cursor) == p)
            && (!r.kv.cell.Saved? ==> r.passes == w.passes + [p] && r.kv.watermark == Some(p.windowTo))
  {
    hide ApplyAll, Work, Entries, AfterTrigger;
    AfterTriggerCells(w.kv, query, t);
    AdvancedInRange(RowsOf(query, w.kv.cell.cursor), w.kv.cell.cursor);
  }

  // ---------------------------------------------------------------- every run

  predicate Opened(w: World, watermark: Option<int>, ts: seq<Trigger>, o: seq<nat>) {
    && |o| == |w.passes| + (if w.kv.cell.Saved? then 1 else 0)
    && (forall i :: 0 <= i < |o| ==> o[i] < |ts|)
    && (forall i, j :: 0 <= i < j < |o| ==> o[i] < o[j])
    && (forall i :: 0 <= i < |w.passes| ==> Opens(w.passes[i], ts[o[i]], EndBefore(watermark, w.passes, i)))
    && var end := EndBefore(watermark, w.passes, |w.passes|);
       if w.kv.cell.Saved? then Opens(WindowOf(w.kv.cell.cursor), ts[o[|w.passes|]], end)
       else EndBefore(w.kv.watermark, [], 0) == end
  }

  lemma KeepsOpened(w: World, r: World, watermark: Option<int>, ts: seq<Trigger>, o: seq<nat>, t: Trigger)
    requires Opened(w, watermark, ts, o) && r.passes == w.passes && r.kv.cell.Saved? == w.kv.cell.Saved?
    requires if w.kv.cell.Saved? then WindowOf(r.kv.cell.cursor) == WindowOf(w.kv.cell.cursor)
             else r.kv.watermark == w.kv.watermark
    ensures Opened(r, watermark, ts + [t], o)
  {
    hide Opens, WindowOf;
  }

  lemma AddsOpened(w: World, r: World, watermark: Option<int>, ts: seq<Trigger>, o: seq<nat>, t: Trigger)
    requires Opened(w, watermark, ts, o) && r.passes == w.passes && !w.kv.cell.Saved? && r.kv.cell.Saved?
    requires Opens(WindowOf(r.kv.cell.cursor), t, EndBefore(w.kv.watermark, [], 0))
    ensures Opened(r, watermark, ts + [t], o + [|ts|])
  {
    hide Opens, WindowOf;
  }

  lemma ClosesOpened(w: World, r: World, watermark: Option<int>, ts: seq<Trigger>, o: seq<nat>, t: Trigger)
    requires Opened(w, watermark, ts, o) && w.kv.cell.Saved? && !r.kv.cell.Saved?
    requires r.passes == w.passes + [WindowOf(w.kv.cell.cursor)]
    requires r.kv.watermark == Some(w.kv.cell.cursor.windowTo)
    ensures Opened(r, watermark, ts + [t], o)
  {
    hide Opens;
    forall i | 0 <= i < |r.passes| ensures Opens(r.passes[i], (ts + [t])[o[i]], EndBefore(watermark, r.passes, i)) {
      assert EndBefore(watermark, r.passes, i) == EndBefore(watermark, w.passes, i);
    }
  }

  lemma StepOpened(w: World, query: Query, watermark: Option<int>, ts: seq<Trigger>, o: seq<nat>, t: Trigger)
    requires GoodCell(query, w.kv.cell) && Opened(w, watermark, ts, o)
    ensures var r := Step(w, query, t);
            && GoodCell(query, r.kv.cell)
            && Opened(r, watermark, ts + [t], o + if !w.kv.cell.Saved? && r.kv.cell.Saved? then [|ts|] else [])
  {
    hide Step, GoodCell, Opened, Opens, EndBefore;
    var r := Step(w, query, t);
    assert o + [] == o;
    if w.kv.cell.Saved? {
      ContinuingStep(w, query, t);
      if r.kv.cell.Saved? {
        KeepsOpened(w, r, watermark, ts, o, t);
      } else {
        ClosesOpened(w, r, watermark, ts, o, t);
      }
    } else {
      OpeningStep(w, query, t);
      if r.kv.cell.Saved? {
        AddsOpened(w, r, watermark, ts, o, t);
      } else {
        KeepsOpened(w, r, watermark, ts, o, t);
      }
    }
  }

  /**
    Over every run, with overrides and interruptions anywhere: the completed windows and the open one are exactly
    the windows that the opening triggers asked for, in order, and each begins at its trigger's override or where
    the window before it ended.
   */
  lemma {:induction false} EveryWindowIsOpened(kv: Kv, query: Query, ts: seq<Trigger>)
    requires !kv.cell.Saved?
    ensures var w := Run(Start(kv), query, ts);
            GoodCell(query, w.kv.cell) && Opened(w, kv.watermark, ts, Openings(Start(kv), query, ts))
  {
    hide Run, Step, GoodCell, Opened, Openings;
    if ts == [] {
      NothingOpened(kv, query);
    } else {
      var init, t := ts[..|ts| - 1], ts[|ts| - 1];
      assert ts == init + [t];
      EveryWindowIsOpened(kv, query, init);
      RunSnoc(Start(kv), query, init, t);
      OpeningsSnoc(Start(kv), query, init, t);
      StepOpened(Run(Start(kv), query, init), query, kv.watermark, init, Openings(Start(kv), query, init), t);
    }
  }

  lemma NothingOpened(kv: Kv, query: Query)
    requires !kv.cell.Saved?
    ensures Run(Start(kv), query, []) == Start(kv) && Openings(Start(kv), query, []) == []
    ensures GoodCell(query, kv.cell) && Opened(Start(kv), kv.watermark, [], [])
  {
  }

  lemma OpeningsSnoc(w: World, query: Query, ts: seq<Trigger>, t: Trigger)
    ensures Openings(w, query, ts + [t]) == Openings(w, query, ts) +
            if !Run(w, query, ts).kv.cell.Saved? && Run(w, query, ts + [t]).kv.cell.Saved? then [|ts|] else []
  {
    hide Run;
    assert (ts + [t])[..|ts + [t]| - 1] == ts;
  }

  /** A saved cursor decides the next completed window, whatever the later triggers carry. */
  lemma {:induction false} SavedWindowStays(w: World, query: Query, ts: seq<Trigger>)
    requires w.kv.cell.Saved? && GoodCell(query, w.kv.cell)
    ensures var r, p := Run(w, query, ts), WindowOf(w.kv.cell.cursor);
            && GoodCell(query, r.kv.cell) && w.passes <= r.passes
            && if r.passes == w.passes then r.kv.cell.Saved? && WindowOf(r.kv.cell.cursor) == p
               else r.passes[|w.passes|] == p
  {
    if ts != [] {
      hide Step, GoodCell;
      SavedWindowStays(w, query, ts[..|ts| - 1]);
      var v, t := Run(w, query, ts[..|ts| - 1]), ts[|ts| - 1];
      if v.kv.cell.Saved? {
        ContinuingStep(v, query, t);
      } else {
        OpeningStep(v, query, t);
      }
    }
  }

  // ---------------------------------------------------------------- a pass without interruptions

  lemma StepPasses(w: World, query: Query, t: Trigger)
    requires GoodCell(query, w.kv.cell)
    ensures var r := Step(w, query, t);
            && GoodCell(query, r.kv.cell)
            && (r.passes == w.passes || (|r.passes| == |w.passes| + 1 && !r.kv.cell.Saved?))
  {
    hide Step, GoodCell;
    if w.kv.cell.Saved? {
      ContinuingStep(w, query, t);
    } else {
      OpeningStep(w, query, t);
    }
  }

  /** The first trigger that completes a pass completes one pass and leaves no cursor. */
  lemma {:induction false} FirstCompletion(kv: Kv, query: Query, ts: seq<Trigger>) returns (n: nat)
    requires !kv.cell.Saved? && Run(Start(kv), query, ts).passes != []
    ensures 0 < n <= |ts|
    ensures var w := Run(Start(kv), query, ts[..n]); |w.passes| == 1 && !w.kv.cell.Saved?
  {
    hide Step, GoodCell, Opened, Openings;
    var init := ts[..|ts| - 1];
    if Run(Start(kv), query, init).passes != [] {
      n := FirstCompletion(kv, query, init);
      assert init[..n] == ts[..n];
    } else {
      n := |ts|;
      EveryWindowIsOpened(kv, query, init);
      StepPasses(Run(Start(kv), query, init), query, ts[|ts| - 1]);
      assert ts[..n] == ts;
    }
  }

  /** Without interruptions the first window is the one the first trigger asks for. */
  lemma FirstWindow(kv: Kv, query: Query, ts: seq<Trigger>)
    requires !kv.cell.Saved? && ts != [] && ts[0].budget >= FULL_BUDGET
    ensures var passes := Run(Start(kv), query, ts).passes;
            passes != [] ==> Opens(passes[0], ts[0], EndBefore(kv.watermark, [], 0))
  {
    hide Step, GoodCell;
    OpeningStep(Start(kv), query, ts[0]);
    RunFromFront(Start(kv), query, ts);
    SavedWindowStays(Step(Start(kv), query, ts[0]), query, ts[1..]);
  }

  /** The triggers that a whole pass over these rows needs at most. */
  function WholePass(rows: Rows): nat {
    Slices(|rows.counts|) + Slices(|Entries(rows.counts)|) + Slices(|rows.uniques|)
  }

  /**
    A pass that no trigger interrupts covers the window from the first trigger's override, or else from the
    watermark, to that trigger's clock: it is completed within the bound, the watermark is that clock, and every total
    and summary entry has grown by what one query of that window counts.
   */
  lemma PassCountsItsWindow(kv: Kv, query: Query, ts: seq<Trigger>, p: Window) returns (n: nat)
    requires !kv.cell.Saved? && ts != [] && Opens(p, ts[0], EndBefore(kv.watermark, [], 0))
    requires forall i :: 0 <= i < |ts| ==> ts[i].budget >= FULL_BUDGET
    requires |ts| >= WholePass(query(p.windowFrom, p.windowTo))
    ensures 0 < n <= |ts|
    ensures var w := Run(Start(kv), query, ts[..n]);
            var counts := query(p.windowFrom, p.windowTo).counts;
            && w.passes == [p] && !w.kv.cell.Saved? && w.kv.watermark == Some(ts[0].now)
            && (forall k :: At(w.kv.totals, k) == At(kv.totals, k) + SumFor(counts, k))
            && (forall q :: At(w.kv.summary, q) == At(kv.summary, q) + SumFor(counts, PerPlugin(q)))
  {
    hide Run, SumFor, Slices, GoodCell;
    PassFinishes(kv, query, ts);
    var m :| 0 <= m <= |ts| && Run(Start(kv), query, ts[..m]).passes != [];
    n := FirstCompletion(kv, query, ts[..m]);
    var done := ts[..m][..n];
    assert done == ts[..n] && done != [] && done[0] == ts[0];
    FirstWindow(kv, query, done);
    EveryWindowIsOpened(kv, query, done);
    var w := Run(Start(kv), query, done);
    assert w.passes == [p];
    assert w.kv.watermark == Some(ts[0].now) by { LastWindowIsMark(kv, query, done); }
    forall k ensures At(w.kv.totals, k) == At(kv.totals, k) + SumFor(query(p.windowFrom, p.windowTo).counts, k) {
      FailureFreeRunIsOneShot(kv, query, done, k, k.pair);
      OneWindow(query, p, k);
    }
    forall q
      ensures At(w.kv.summary, q)
           == At(kv.summary, q) + SumFor(query(p.windowFrom, p.windowTo).counts, PerPlugin(q))
    {
      FailureFreeRunIsOneShot(kv, query, done, PerPlugin(q), q);
      OneWindow(query, p, PerPlugin(q));
    }
  }

  lemma OneWindow(query: Query, p: Window, k: TotalKey)
    ensures Accounted(query, [p], k) == SumFor(query(p.windowFrom, p.windowTo).counts, k)
  {
    AccountedStep(query, [], p, k);
    assert [] + [p] == [p];
  }

  lemma {:induction false} LastWindowIsMark(kv: Kv, query: Query, ts: seq<Trigger>)
    requires !kv.cell.Saved?
    ensures var w := Run(Start(kv), query, ts);
            w.passes != [] && !w.kv.cell.Saved? ==> w.kv.watermark == Some(w.passes[|w.passes| - 1].windowTo)
  {
    hide Run, Step, GoodCell, Opened, Openings;
    if ts == [] {
      RunNone(Start(kv), query);
    } else {
      var init, t := ts[..|ts| - 1], ts[|ts| - 1];
      assert ts == init + [t];
      RunSnoc(Start(kv), query, init, t);
      LastWindowIsMark(kv, query, init);
      EveryWindowIsOpened(kv, query, init);
      var v := Run(Start(kv), query, init);
      if v.kv.cell.Saved? {
        ContinuingStep(v, query, t);
      } else {
        OpeningStep(v, query, t);
      }
    }
  }

  // ---------------------------------------------------------------- answers

  /**
    What a trigger answers after any run: a completed pass is answered with its window and the sizes of the two
    lists queried for it, an unfinished one with the saved position and the size of the list it points into.
   */
  lemma AnswerMeans(kv: Kv, query: Query, ts: seq<Trigger>, t: Trigger)
    requires !kv.cell.Saved?
    ensures var w, r := Run(Start(kv), query, ts), Run(Start(kv), query, ts + [t]);
            var a := Answer(w.kv, query, t);
            && (t.budget >= FULL_BUDGET ==> a != Failed)
            && (a != Failed && r.kv.cell.Saved? ==>
                  var c := r.kv.cell.cursor;
                  var rows := query(c.windowFrom, c.windowTo);
                  r.passes == w.passes && a == Progress(c.phase, c.offset,
                    match c.phase
                    case Counts => |rows.counts|
                    case PluginTotals => |Entries(rows.counts)|
                    case Uniques => |rows.uniques|))
            && (a != Failed && !r.kv.cell.Saved? ==>
                  && |r.passes| == |w.passes| + 1
                  && var p := r.passes[|w.passes|];
                     var rows := query(p.windowFrom, p.windowTo);
                     a == Completed(p.windowFrom, p.windowTo, |rows.counts|, |rows.uniques|))
  {
    hide ApplyAll, Work, Entries, AfterTrigger, Run;
    EveryWindowIsOpened(kv, query, ts);
    RunSnoc(Start(kv), query, ts, t);
    var w := Run(Start(kv), query, ts);
    AfterTriggerCells(w.kv, query, t);
    AdvancedInRange(RowsOf(query, Resume(w.kv, t.now, t.fromOverride)), Resume(w.kv, t.now, t.fromOverride));
  }

  // ---------------------------------------------------------------- chunk sizes

  /**
    How the chunk size adapts: a new pass takes the tuned size if that is in range, a trigger that saves its
    position takes one more, a failed one halves it where its handler still writes, and a completed pass leaves a
    quarter more, rounded up, for the next; always between 8 and 400.
   */
  lemma ChunkAdapts(w: World, query: Query, t: Trigger)
    requires GoodCell(query, w.kv.cell)
    ensures var r, a := Step(w, query, t).kv, Answer(w.kv, query, t);
            if !w.kv.cell.Saved? then
              var tuned := w.kv.tuning.Some? && 8 <= w.kv.tuning.value <= 400;
              r.cell.Saved? ==>
                r.cell.cursor.chunk == if tuned && w.kv.tuning.value < 400 then w.kv.tuning.value + 1 else 400
            else
              var chunk := w.kv.cell.cursor.chunk;
              if !r.cell.Saved? then
                a != Failed ==>
                  && r.tuning.Some? && r.tuning.value <= 400
                  && (r.tuning.value < 400 ==> 4 * (r.tuning.value - 1) < 5 * chunk <= 4 * r.tuning.value)
                  && (r.tuning.value == 400 ==> 5 * chunk > 4 * 399)
              else if a != Failed then r.cell.cursor.chunk == if chunk < 400 then chunk + 1 else 400
              else if !t.handlerWrites then r.cell == w.kv.cell
              else
                && r.cell.cursor == w.kv.cell.cursor.(chunk := r.cell.cursor.chunk)
                && (if chunk < 16 then r.cell.cursor.chunk == 8
                    else chunk - 1 <= 2 * r.cell.cursor.chunk <= chunk)
  {
    hide ApplyAll, Work, Entries, AfterTrigger;
    AfterTriggerCells(w.kv, query, t);
    if w.kv.cell.Saved? {
      AdvancedInRange(RowsOf(query, w.kv.cell.cursor), w.kv.cell.cursor);
    }
  }
}
