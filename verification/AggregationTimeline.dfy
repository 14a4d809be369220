/**
  The windows of successive passes over the time line, and what they count of an event log.
  These theorems are about runs without a manual start override and with a clock that never
  goes back; triggers may still be interrupted anywhere.
 */
module AggregationTimeline {
  import opened Common
  import opened Aggregation
  import opened AggregationRuns

  /** The longest window the edge analytics query covers, in seconds. */
  const DOWNLOAD_LIMIT := 29 * 24 * 60 * 60

  /** The windows follow each other without gap or overlap, from `first` to `last`. */
  predicate Tiles(passes: seq<Window>, first: int, last: int) {
    if passes == [] then first == last
    else
      var p := passes[|passes| - 1];
      p.windowFrom <= p.windowTo == last && Tiles(passes[..|passes| - 1], first, p.windowFrom)
  }

  predicate ScheduledFrom(ts: seq<Trigger>, first: int) {
    forall i :: 0 <= i < |ts| ==>
      && ts[i].fromOverride == None
      && first <= ts[i].now
      && (i > 0 ==> ts[i - 1].now <= ts[i].now)
  }

  function Latest(ts: seq<Trigger>, first: int): int {
    if ts == [] then first else ts[|ts| - 1].now
  }

  /** The point up to which the time line is covered by completed passes. */
  function Covered(kv: Kv): int {
    if kv.cell.Saved? then kv.cell.cursor.windowFrom else Mark(kv)
  }

  predicate OnTimeline(w: World, first: int, latest: int) {
    && Tiles(w.passes, first, Covered(w.kv))
    && Mark(w.kv) <= latest
    && (w.kv.cell.Saved? ==>
          var c := w.kv.cell.cursor;
          c.windowFrom <= c.windowTo <= latest && (Mark(w.kv) == c.windowFrom || Mark(w.kv) == c.windowTo))
  }

  lemma StepOnTimeline(w: World, query: Query, t: Trigger, first: int, latest: int)
    requires GoodCell(query, w.kv.cell) && OnTimeline(w, first, latest)
    requires t.fromOverride == None && latest <= t.now
    ensures OnTimeline(Step(w, query, t), first, t.now)
  {
    AfterTriggerCells(w.kv, query, t);
    var c := Resume(w.kv, t.now, t.fromOverride);
    var r := Step(w, query, t);
    if Settled(RowsOf(query, c), c, t.budget) && Closing(RowsOf(query, c), c) {
      assert r.passes[..|r.passes| - 1] == w.passes;
    }
  }

  /** Completed passes tile the time line from the first watermark to the current one, whatever was interrupted. */
  lemma {:induction false} PassesTile(kv: Kv, query: Query, ts: seq<Trigger>)
    requires !kv.cell.Saved? && ScheduledFrom(ts, Mark(kv))
    ensures OnTimeline(Run(Start(kv), query, ts), Mark(kv), Latest(ts, Mark(kv)))
  {
    if ts != [] {
      var init := ts[..|ts| - 1];
      PassesTile(kv, query, init);
      RunBalanced(kv, query, init, PerPlugin(Pair("", "")), Pair("", ""));
      StepOnTimeline(Run(Start(kv), query, init), query, ts[|ts| - 1], Mark(kv), Latest(init, Mark(kv)));
    }
  }

  // ---------------------------------------------------------------- event log

  datatype Event = Event(time: int, row: Count)

  /** The events of a key with `after < time <= until`. */
  function EventsIn(log: seq<Event>, k: TotalKey, after: int, until: int): nat {
    if log == [] then 0
    else
      var e := log[|log| - 1];
      EventsIn(log[..|log| - 1], k, after, until) + if Feeds(e.row, k) && after < e.time <= until then e.row.events
          else 0
  }

  /** Downloads are only visible for the most recent part of a long window. */
  function VisibleFrom(k: TotalKey, windowFrom: int, windowTo: int): int {
    if k.pair.kind == "dl" then Max(windowFrom, windowTo - DOWNLOAD_LIMIT) else windowFrom
  }

  /** The queries report the log, within the visibility limit. */
  ghost predicate Reports(query: Query, log: seq<Event>, k: TotalKey) {
    forall f, t :: f <= t ==> SumFor(query(f, t).counts, k) == EventsIn(log, k, VisibleFrom(k, f, t), t)
  }

  /** The events that fall into a window before its visible part. */
  function Unseen(log: seq<Event>, passes: seq<Window>, k: TotalKey): nat {
    if passes == [] then 0
    else
      var p := passes[|passes| - 1];
      Unseen(log, passes[..|passes| - 1], k) + EventsIn(log, k, p.windowFrom, VisibleFrom(k, p.windowFrom, p.windowTo))
  }

  lemma {:induction false} EventsSplit(log: seq<Event>, k: TotalKey, a: int, b: int, c: int)
    requires a <= b <= c
    ensures EventsIn(log, k, a, b) + EventsIn(log, k, b, c) == EventsIn(log, k, a, c)
  {
    if log != [] {
      EventsSplit(log[..|log| - 1], k, a, b, c);
    }
  }

  lemma {:induction false} NoTimeNoEvents(log: seq<Event>, k: TotalKey, a: int)
    ensures EventsIn(log, k, a, a) == 0
  {
    if log != [] {
      NoTimeNoEvents(log[..|log| - 1], k, a);
    }
  }

  lemma {:induction false} TilesCoverOnce(query: Query, log: seq<Event>, passes: seq<Window>, first: int, last: int,
      k: TotalKey)
    requires Reports(query, log, k) && Tiles(passes, first, last)
    ensures first <= last
    ensures Accounted(query, passes, k) + Unseen(log, passes, k) == EventsIn(log, k, first, last)
  {
    if passes == [] {
      NoTimeNoEvents(log, k, first);
    } else {
      var p := passes[|passes| - 1];
      TilesCoverOnce(query, log, passes[..|passes| - 1], first, p.windowFrom, k);
      var v := VisibleFrom(k, p.windowFrom, p.windowTo);
      if v <= p.windowTo {
        EventsSplit(log, k, p.windowFrom, v, p.windowTo);
      }
      EventsSplit(log, k, first, p.windowFrom, p.windowTo);
      assert SumFor(query(p.windowFrom, p.windowTo).counts, k) == EventsIn(log, k, v, p.windowTo);
    }
  }

  /**
    End to end: whenever no pass is in progress, a total plus the downloads no query could see is
    its old value plus every event since the first watermark counted once, plus the re-run additions.
   */
  lemma EveryEventCountedOnce(kv: Kv, query: Query, log: seq<Event>, ts: seq<Trigger>, k: TotalKey)
    requires !kv.cell.Saved? && ScheduledFrom(ts, Mark(kv))
    requires Reports(query, log, k)
    requires !Run(Start(kv), query, ts).kv.cell.Saved?
    ensures var w := Run(Start(kv), query, ts);
            && Mark(kv) <= Mark(w.kv) <= Latest(ts, Mark(kv))
            && At(w.kv.totals, k) + Unseen(log, w.passes, k)
               == At(kv.totals, k) + EventsIn(log, k, Mark(kv), Mark(w.kv)) + At(w.ledger.totals, k)
  {
    var w := Run(Start(kv), query, ts);
    PassesTile(kv, query, ts);
    TilesCoverOnce(query, log, w.passes, Mark(kv), Mark(w.kv), k);
    RunBalanced(kv, query, ts, k, k.pair);
  }

  /**
    Events go unseen exactly when a window hides a download: kind `dl`, 29 days or more before the end of the window.
   */
  predicate Hidden(e: Event, p: Window, k: TotalKey) {
    && Feeds(e.row, k) && k.pair.kind == "dl" && e.row.events > 0
    && p.windowFrom < e.time <= p.windowTo - 29 * 86_400
  }

  lemma {:induction false} EventsPositive(log: seq<Event>, k: TotalKey, a: int, b: int)
    ensures EventsIn(log, k, a, b) > 0
            <==> exists i :: 0 <= i < |log| && Feeds(log[i].row, k) && a < log[i].time <= b && log[i].row.events > 0
  {
    if log != [] {
      var init := log[..|log| - 1];
      EventsPositive(init, k, a, b);
      if EventsIn(init, k, a, b) > 0 {
        var i :| 0 <= i < |init| && Feeds(init[i].row, k) && a < init[i].time <= b && init[i].row.events > 0;
        assert log[i] == init[i];
      }
    }
  }

  lemma {:induction false} NothingUnseenIff(log: seq<Event>, passes: seq<Window>, k: TotalKey)
    ensures Unseen(log, passes, k) == 0 <==>
            forall i, j :: 0 <= i < |log| && 0 <= j < |passes| ==> !Hidden(log[i], passes[j], k)
  {
    if passes != [] {
      var init, p := passes[..|passes| - 1], passes[|passes| - 1];
      NothingUnseenIff(log, init, k);
      EventsPositive(log, k, p.windowFrom, VisibleFrom(k, p.windowFrom, p.windowTo));
      if Unseen(log, passes, k) == 0 {
        forall i, j | 0 <= i < |log| && 0 <= j < |passes| ensures !Hidden(log[i], passes[j], k) {
          if j < |init| { assert passes[j] == init[j]; }
        }
      } else if Unseen(log, init, k) > 0 {
        var i, j :| 0 <= i < |log| && 0 <= j < |init| && Hidden(log[i], init[j], k);
        assert Hidden(log[i], passes[j], k);
      } else {
        var i :| 0 <= i < |log| && Feeds(log[i].row, k)
            && p.windowFrom < log[i].time <= VisibleFrom(k, p.windowFrom, p.windowTo) && log[i].row.events > 0;
        assert Hidden(log[i], passes[|passes| - 1], k);
      }
    }
  }
}
