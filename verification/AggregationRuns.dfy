/**
  Whole runs of the aggregation: any number of triggers, each stopping after any number of
  its writes. The ledger records the additions of triggers that were cut off before their
  cursor was settled; it makes the accounting of every total exact.
 */
module AggregationRuns {
  import opened Common
  import opened Aggregation

  datatype Window = Window(windowFrom: int, windowTo: int)

  datatype World = World(kv: Kv, passes: seq<Window>, ledger: Kv)

  function EmptyKv(): Kv { Kv(map[], map[], map[], None, Empty, None) }

  function Start(kv: Kv): World { World(kv, [], EmptyKv()) }

  /** A trigger is settled once its cursor is saved, or deleted at the end of the pass. */
  predicate Settled(rows: Rows, c: Cursor, budget: nat) {
    budget >= |Work(rows, c)| + if Closing(rows, c) then 3 else 1
  }

  function Step(w: World, query: Query, t: Trigger): World {
    var c := Resume(w.kv, t.now, t.fromOverride);
    var rows := RowsOf(query, c);
    var ops := TriggerOps(query, c);
    World(AfterTrigger(w.kv, query, t),
          if Settled(rows, c, t.budget) && Closing(rows, c) then w.passes + [Window(c.windowFrom, c.windowTo)]
              else w.passes,
          if Settled(rows, c, t.budget) then w.ledger else ApplyAll(w.ledger, ops[..t.budget]))
  }

  function Run(w: World, query: Query, ts: seq<Trigger>): World {
    if ts == [] then w else Step(Run(w, query, ts[..|ts| - 1]), query, ts[|ts| - 1])
  }

  // ---------------------------------------------------------------- accounts

  /** The one-shot sums of all completed windows. */
  function Accounted(query: Query, passes: seq<Window>, k: TotalKey): nat {
    if passes == [] then 0
    else
      var p := passes[|passes| - 1];
      Accounted(query, passes[..|passes| - 1], k) + SumFor(query(p.windowFrom, p.windowTo).counts, k)
  }

  /** What the part of the window before the cursor adds to a total. */
  function BeforeCursor(rows: Rows, c: Cursor, k: TotalKey): nat
    requires c.offset <= PhaseLength(rows, c.phase)
  {
    match (c.phase, k)
    case (Counts, Versioned(_, _)) => SumFor(rows.counts[..c.offset], k)
    case (Counts, PerPlugin(_)) => 0
    case (PluginTotals, Versioned(_, _)) => SumFor(rows.counts, k)
    case (PluginTotals, PerPlugin(p)) => EntrySum(Entries(rows.counts)[..c.offset], p)
    case (Uniques, _) => SumFor(rows.counts, k)
  }

  predicate GoodCell(query: Query, cell: CursorCell) {
    cell.Saved? ==>
      && cell.cursor.offset <= PhaseLength(RowsOf(query, cell.cursor), cell.cursor.phase)
      && MIN_CHUNK <= cell.cursor.chunk <= MAX_CHUNK
  }

  function InFlight(query: Query, cell: CursorCell, k: TotalKey): nat
    requires GoodCell(query, cell)
  {
    if cell.Saved? then BeforeCursor(RowsOf(query, cell.cursor), cell.cursor, k) else 0
  }

  /** Every total is accounted for: old value, completed windows, the part before the cursor, and re-run additions. */
  predicate Balanced(w: World, base: Kv, query: Query, k: TotalKey, p: Pair)
    requires GoodCell(query, w.kv.cell)
  {
    && At(w.kv.totals, k) == At(base.totals, k) + Accounted(query, w.passes, k) + InFlight(query, w.kv.cell, k)
       + At(w.ledger.totals, k)
    && At(w.kv.summary, p) == At(base.summary, p) + Accounted(query, w.passes, PerPlugin(p)) + At(w.ledger.summary, p)
  }

  // ---------------------------------------------------------------- what a slice adds

  lemma {:induction false} SumForSplit(a: seq<Count>, b: seq<Count>, k: TotalKey)
    ensures SumFor(a + b, k) == SumFor(a, k) + SumFor(b, k)
  {
    if b == [] {
      assert a + b == a;
    } else {
      assert (a + b)[..|a + b| - 1] == a + b[..|b| - 1];
      SumForSplit(a, b[..|b| - 1], k);
    }
  }

  lemma {:induction false} CountOpsAdd(cs: seq<Count>, k: TotalKey, p: Pair)
    ensures AddedTo(CountOps(cs), k) == if k.Versioned? then SumFor(cs, k) else 0
    ensures SummaryAddedTo(CountOps(cs), p) == 0
  {
    if cs != [] {
      CountOpsAdd(cs[..|cs| - 1], k, p);
      assert CountOps(cs)[..|cs| - 1] == CountOps(cs[..|cs| - 1]);
    }
  }

  lemma {:induction false} EntryOpsAdd(es: seq<Entry>, k: TotalKey, p: Pair)
    ensures AddedTo(EntryOps(es), k) == if k.PerPlugin? then EntrySum(es, k.pair) else 0
    ensures SummaryAddedTo(EntryOps(es), p) == 0
  {
    if es != [] {
      var init := es[..|es| - 1];
      EntryOpsAdd(init, k, p);
      assert EntryOps(es)[..|es| - 1] == EntryOps(init);
      if k.PerPlugin? {
        assert es == init + [es[|es| - 1]];
        EntrySumSplit(init, [es[|es| - 1]], k.pair);
      }
    }
  }

  lemma {:induction false} UniqueOpsAdd(us: seq<Unique>, k: TotalKey, p: Pair)
    ensures AddedTo(UniqueOps(us), k) == 0
    ensures SummaryAddedTo(UniqueOps(us), p) == 0
  {
    if us != [] {
      UniqueOpsAdd(us[..|us| - 1], k, p);
      assert UniqueOps(us)[..|us| - 1] == UniqueOps(us[..|us| - 1]);
    }
  }

  lemma AdvancedInRange(rows: Rows, c: Cursor)
    requires c.offset <= PhaseLength(rows, c.phase)
    ensures Advanced(rows, c).offset <= PhaseLength(rows, Advanced(rows, c).phase)
    ensures Moved(rows, c) <= PhaseLength(rows, c.phase)
    ensures var n := Advanced(rows, c);
            n.windowFrom == c.windowFrom && n.windowTo == c.windowTo && n.chunk == c.chunk
                && (Closing(rows, c) ==> n.phase == Uniques)
  {
  }

  lemma CountsWorkAdds(rows: Rows, c: Cursor, k: TotalKey, p: Pair)
    requires c.phase == Counts && c.offset <= |rows.counts|
    ensures AddedTo(Work(rows, c), k) == if k.Versioned?
            then SumFor(rows.counts[..Moved(rows, c)], k) - SumFor(rows.counts[..c.offset], k) else 0
    ensures SummaryAddedTo(Work(rows, c), p) == 0
  {
    var slice := Slice(rows.counts, c);
    CountOpsAdd(slice, k, p);
    assert rows.counts[..Moved(rows, c)] == rows.counts[..c.offset] + slice;
    SumForSplit(rows.counts[..c.offset], slice, k);
  }

  lemma EntriesWorkAdds(rows: Rows, c: Cursor, k: TotalKey, p: Pair)
    requires c.phase == PluginTotals && c.offset <= |Entries(rows.counts)|
    ensures var es := Entries(rows.counts);
            AddedTo(Work(rows, c), k) == if k.PerPlugin?
                then EntrySum(es[..Moved(rows, c)], k.pair) - EntrySum(es[..c.offset], k.pair) else 0
    ensures SummaryAddedTo(Work(rows, c), p) == 0
  {
    var entries := Entries(rows.counts);
    var slice := Slice(entries, c);
    EntryOpsAdd(slice, k, p);
    if k.PerPlugin? {
      assert entries[..Moved(rows, c)] == entries[..c.offset] + slice;
      EntrySumSplit(entries[..c.offset], slice, k.pair);
    }
  }

  /** The writes of a slice move a total exactly as far as the cursor moves. */
  lemma WorkAdds(rows: Rows, c: Cursor, k: TotalKey, p: Pair)
    requires c.offset <= PhaseLength(rows, c.phase)
    ensures Advanced(rows, c).offset <= PhaseLength(rows, Advanced(rows, c).phase)
    ensures BeforeCursor(rows, c, k) + AddedTo(Work(rows, c), k) == BeforeCursor(rows, Advanced(rows, c), k)
    ensures SummaryAddedTo(Work(rows, c), p) == 0
  {
    AdvancedInRange(rows, c);
    match c.phase {
      case Counts =>
        CountsWorkAdds(rows, c, k, p);
        if Moved(rows, c) == |rows.counts| {
          assert rows.counts[..Moved(rows, c)] == rows.counts;
          assert Entries(rows.counts)[..0] == [];
        }
      case PluginTotals =>
        EntriesWorkAdds(rows, c, k, p);
        if Moved(rows, c) == |Entries(rows.counts)| && k.PerPlugin? {
          assert Entries(rows.counts)[..Moved(rows, c)] == Entries(rows.counts);
          EntriesSum(rows.counts, k.pair);
        }
      case Uniques =>
        UniqueOpsAdd(Slice(rows.uniques, c), k, p);
    }
  }

  // ---------------------------------------------------------------- what a prefix leaves alone

  predicate SliceOp(op: Op) { op.AddTotal? || op.PutUnique? }

  lemma {:induction false} SliceOpsKeep(kv: Kv, ops: seq<Op>)
    requires forall i :: 0 <= i < |ops| ==> SliceOp(ops[i])
    ensures var r := ApplyAll(kv, ops);
            r.cell == kv.cell && r.watermark == kv.watermark && r.tuning == kv.tuning && r.summary == kv.summary
  {
    if ops != [] {
      SliceOpsKeep(kv, ops[..|ops| - 1]);
    }
  }

  lemma WorkIsSliceOps(rows: Rows, c: Cursor)
    ensures forall i :: 0 <= i < |Work(rows, c)| ==> SliceOp(Work(rows, c)[i])
  {
  }

  /** The cells a prefix of a trigger's writes leaves behind. */
  lemma PrefixCells(kv: Kv, rows: Rows, c: Cursor, n: nat)
    requires n <= |Work(rows, c) + Close(rows, c)|
    ensures var r := ApplyAll(kv, (Work(rows, c) + Close(rows, c))[..n]);
            var w := |Work(rows, c)|;
            && (!Settled(rows, c, n) ==> r.cell == kv.cell && r.tuning == kv.tuning)
            && (Settled(rows, c, n) ==> r.cell == if Closing(rows, c) then Empty else Saved(Grown(Advanced(rows, c))))
            && (r.watermark == if Closing(rows, c) && n >= w + 2 then Some(c.windowTo) else kv.watermark)
            && (r.tuning == if Closing(rows, c) && n >= w + 4 then Some(Tuned(c.chunk)) else kv.tuning)
  {
    var work, close := Work(rows, c), Close(rows, c);
    WorkIsSliceOps(rows, c);
    if n <= |work| {
      assert (work + close)[..n] == work[..n];
      SliceOpsKeep(kv, work[..n]);
    } else {
      var m := n - |work|;
      assert (work + close)[..n] == work + close[..m];
      SliceOpsKeep(kv, work);
      ApplyAllSplit(kv, work, close[..m]);
      CloseCells(ApplyAll(kv, work), rows, c, m);
    }
  }

  lemma ApplySnoc(kv: Kv, ops: seq<Op>, op: Op)
    ensures ApplyAll(kv, ops + [op]) == Apply(ApplyAll(kv, ops), op)
  {
    assert (ops + [op])[..|ops|] == ops;
  }

  lemma ApplyNone(kv: Kv)
    ensures ApplyAll(kv, []) == kv
  {
  }

  lemma ClosingCells(kv: Kv, counts: seq<Count>, time: int, size: int, m: nat)
    requires 1 <= m <= 4
    ensures var r := ApplyAll(kv, [AddSummary(counts), PutWatermark(time), DeleteCursor, PutTuning(size)][..m]);
            && r.cell == (if m >= 3 then Empty else kv.cell)
            && r.watermark == (if m >= 2 then Some(time) else kv.watermark)
            && r.tuning == (if m >= 4 then Some(size) else kv.tuning)
  {
    hide ApplyAll, Summarised;
    var ops := [AddSummary(counts), PutWatermark(time), DeleteCursor, PutTuning(size)];
    assert ops[..m] == ops[..m - 1] + [ops[m - 1]];
    ApplySnoc(kv, ops[..m - 1], ops[m - 1]);
    if m > 1 {
      ClosingCells(kv, counts, time, size, m - 1);
    } else {
      assert ops[..0] == [];
      ApplyNone(kv);
    }
  }

  lemma CloseCells(kv: Kv, rows: Rows, c: Cursor, m: nat)
    requires 1 <= m <= |Close(rows, c)|
    ensures var r := ApplyAll(kv, Close(rows, c)[..m]);
            if Closing(rows, c) then
              && r.cell == (if m >= 3 then Empty else kv.cell)
              && r.watermark == (if m >= 2 then Some(c.windowTo) else kv.watermark)
              && r.tuning == (if m >= 4 then Some(Tuned(c.chunk)) else kv.tuning)
            else
              r.cell == Saved(Grown(Advanced(rows, c))) && r.watermark == kv.watermark && r.tuning == kv.tuning
  {
    if Closing(rows, c) {
      ClosingCells(kv, rows.counts, c.windowTo, Tuned(c.chunk), m);
    } else {
      var op := PutCursor(Grown(Advanced(rows, c)));
      assert Close(rows, c)[..m] == [] + [op];
      ApplySnoc(kv, [], op);
    }
  }

  lemma CloseAdds(rows: Rows, c: Cursor, m: nat, k: TotalKey, p: Pair)
    requires m <= |Close(rows, c)|
    ensures AddedTo(Close(rows, c)[..m], k) == 0
    ensures SummaryAddedTo(Close(rows, c)[..m], p) == if Closing(rows, c) && m >= 1
            then SumFor(rows.counts, PerPlugin(p)) else 0
  {
    hide Advanced, SumFor;
    if m >= 1 {
      assert Close(rows, c)[..m][..m - 1] == Close(rows, c)[..m - 1];
      CloseAdds(rows, c, m - 1, k, p);
    }
  }

  /** What a prefix that includes the whole slice adds. */
  lemma PrefixAdds(rows: Rows, c: Cursor, n: nat, k: TotalKey, p: Pair)
    requires c.offset <= PhaseLength(rows, c.phase)
    requires |Work(rows, c)| <= n <= |Work(rows, c) + Close(rows, c)|
    ensures AddedTo((Work(rows, c) + Close(rows, c))[..n], k) == AddedTo(Work(rows, c), k)
    ensures SummaryAddedTo((Work(rows, c) + Close(rows, c))[..n], p)
         == if Closing(rows, c) && n > |Work(rows, c)| then SumFor(rows.counts, PerPlugin(p)) else 0
  {
    var m := n - |Work(rows, c)|;
    assert (Work(rows, c) + Close(rows, c))[..n] == Work(rows, c) + Close(rows, c)[..m];
    AddedToSplit(Work(rows, c), Close(rows, c)[..m], k, p);
    CloseAdds(rows, c, m, k, p);
    WorkAdds(rows, c, k, p);
  }

  /** `AfterTrigger` as the prefix that happened, followed by the error handler where it runs. */
  function Happened(query: Query, c: Cursor, budget: nat): seq<Op> {
    TriggerOps(query, c)[..Min(budget, |TriggerOps(query, c)|)]
  }

  lemma AfterTriggerCells(kv: Kv, query: Query, t: Trigger)
    requires GoodCell(query, kv.cell)
    ensures var c := Resume(kv, t.now, t.fromOverride);
            var rows := RowsOf(query, c);
            var r := AfterTrigger(kv, query, t);
            && GoodCell(query, r.cell)
            && c.offset <= PhaseLength(rows, c.phase) && MIN_CHUNK <= c.chunk <= MAX_CHUNK
            && r.totals == ApplyAll(kv, Happened(query, c, t.budget)).totals
            && r.summary == ApplyAll(kv, Happened(query, c, t.budget)).summary
            && r.uniqd == ApplyAll(kv, Happened(query, c, t.budget)).uniqd
            && (Settled(rows, c, t.budget) ==>
               r.cell == if Closing(rows, c) then Empty else Saved(Grown(Advanced(rows, c))))
            && (!Settled(rows, c, t.budget) ==>
               r.cell == if kv.cell.Saved? && t.handlerWrites then Saved(Halved(kv.cell.cursor)) else kv.cell)
            && r.watermark == (if Closing(rows, c) && t.budget >= |Work(rows, c)| + 2 then Some(c.windowTo)
               else kv.watermark)
            && r.tuning == (if Closing(rows, c) && t.budget >= |Work(rows, c)| + 4 then Some(Tuned(c.chunk))
               else kv.tuning)
  {
    hide ApplyAll, Work, Advanced, Entries, PhaseLength;
    var c := Resume(kv, t.now, t.fromOverride);
    var rows := RowsOf(query, c);
    var ops := TriggerOps(query, c);
    var n := Min(t.budget, |ops|);
    PrefixCells(kv, rows, c, n);
    if t.budget >= |ops| {
      assert ops[..n] == ops;
    }
    FreshCursorInRange(kv, query, t);
    AdvancedInRange(rows, c);
  }

  lemma FreshCursorInRange(kv: Kv, query: Query, t: Trigger)
    requires GoodCell(query, kv.cell)
    ensures var c := Resume(kv, t.now, t.fromOverride);
            c.offset <= PhaseLength(RowsOf(query, c), c.phase) && MIN_CHUNK <= c.chunk <= MAX_CHUNK
  {
  }

  // ---------------------------------------------------------------- conservation

  lemma ResumedInFlight(kv: Kv, query: Query, t: Trigger, k: TotalKey)
    requires GoodCell(query, kv.cell)
    ensures var c := Resume(kv, t.now, t.fromOverride);
            c.offset <= PhaseLength(RowsOf(query, c), c.phase)
                && InFlight(query, kv.cell, k) == BeforeCursor(RowsOf(query, c), c, k)
  {
    hide Entries;
    if !kv.cell.Saved? {
      assert query(Resume(kv, t.now, t.fromOverride).windowFrom, t.now).counts[..0] == [];
    }
  }

  lemma AccountedStep(query: Query, passes: seq<Window>, p: Window, k: TotalKey)
    ensures Accounted(query, passes + [p], k)
            == Accounted(query, passes, k) + SumFor(query(p.windowFrom, p.windowTo).counts, k)
  {
    assert (passes + [p])[..|passes + [p]| - 1] == passes;
  }

  lemma SettledBalanced(w: World, base: Kv, query: Query, t: Trigger, k: TotalKey, p: Pair)
    requires GoodCell(query, w.kv.cell) && Balanced(w, base, query, k, p)
    requires var c := Resume(w.kv, t.now, t.fromOverride); Settled(RowsOf(query, c), c, t.budget)
    ensures GoodCell(query, Step(w, query, t).kv.cell)
    ensures Balanced(Step(w, query, t), base, query, k, p)
  {
    hide ApplyAll, Work, Advanced, Entries, AfterTrigger, SumFor, AddedTo, SummaryAddedTo, Accounted;
    AfterTriggerCells(w.kv, query, t);
    ResumedInFlight(w.kv, query, t, k);
    var c := Resume(w.kv, t.now, t.fromOverride);
    var rows := RowsOf(query, c);
    ApplyAllAdds(w.kv, Happened(query, c, t.budget), k, p);
    PrefixAdds(rows, c, Min(t.budget, |TriggerOps(query, c)|), k, p);
    WorkAdds(rows, c, k, p);
    AdvancedInRange(rows, c);
    AccountedStep(query, w.passes, Window(c.windowFrom, c.windowTo), k);
    AccountedStep(query, w.passes, Window(c.windowFrom, c.windowTo), PerPlugin(p));
  }

  /** One trigger, interrupted anywhere, keeps every account balanced. */
  lemma StepBalanced(w: World, base: Kv, query: Query, t: Trigger, k: TotalKey, p: Pair)
    requires GoodCell(query, w.kv.cell) && Balanced(w, base, query, k, p)
    ensures GoodCell(query, Step(w, query, t).kv.cell)
    ensures Balanced(Step(w, query, t), base, query, k, p)
  {
    hide ApplyAll, Work, Advanced, Entries, AfterTrigger, SumFor, AddedTo, SummaryAddedTo, Accounted;
    var c := Resume(w.kv, t.now, t.fromOverride);
    if Settled(RowsOf(query, c), c, t.budget) {
      SettledBalanced(w, base, query, t, k, p);
    } else {
      AfterTriggerCells(w.kv, query, t);
      var happened := Happened(query, c, t.budget);
      ApplyAllAdds(w.kv, happened, k, p);
      ApplyAllAdds(w.ledger, happened, k, p);
    }
  }

  /**
    Conservation over every run: at every point, with any interruptions, each running total
    and each summary entry is its old value plus the one-shot sums of the completed windows,
    plus the part before the saved cursor, plus what interrupted triggers had already added.
   */
  lemma {:induction false} RunBalanced(kv: Kv, query: Query, ts: seq<Trigger>, k: TotalKey, p: Pair)
    requires !kv.cell.Saved?
    ensures GoodCell(query, Run(Start(kv), query, ts).kv.cell)
    ensures Balanced(Run(Start(kv), query, ts), kv, query, k, p)
  {
    if ts != [] {
      RunBalanced(kv, query, ts[..|ts| - 1], k, p);
      StepBalanced(Run(Start(kv), query, ts[..|ts| - 1]), kv, query, ts[|ts| - 1], k, p);
    }
  }

  // ---------------------------------------------------------------- size of the excess

  /** The slice a trigger leaves to be run again, as events of one key. */
  function RerunOf(w: World, query: Query, t: Trigger, k: TotalKey): int {
    var c := Resume(w.kv, t.now, t.fromOverride);
    if Settled(RowsOf(query, c), c, t.budget) then 0 else AddedTo(Work(RowsOf(query, c), c), k)
  }

  /** The summary step a trigger leaves to be run again. */
  function SummaryRerunOf(w: World, query: Query, t: Trigger, p: Pair): nat {
    var c := Resume(w.kv, t.now, t.fromOverride);
    var rows := RowsOf(query, c);
    if !Settled(rows, c, t.budget) && Closing(rows, c) && t.budget > |Work(rows, c)|
        then SumFor(rows.counts, PerPlugin(p)) else 0
  }

  function Rerun(w: World, query: Query, ts: seq<Trigger>, k: TotalKey): int {
    if ts == [] then 0
    else Rerun(w, query, ts[..|ts| - 1], k) + RerunOf(Run(w, query, ts[..|ts| - 1]), query, ts[|ts| - 1], k)
  }

  function SummaryRerun(w: World, query: Query, ts: seq<Trigger>, p: Pair): int {
    if ts == [] then 0
    else
      var init := ts[..|ts| - 1];
      SummaryRerun(w, query, init, p) + SummaryRerunOf(Run(w, query, init), query, ts[|ts| - 1], p)
  }

  lemma {:induction false} AddedToMonotone(ops: seq<Op>, n: nat, k: TotalKey)
    requires n <= |ops|
    requires forall i :: 0 <= i < |ops| ==> ops[i].AddTotal? ==> ops[i].delta >= 0
    ensures 0 <= AddedTo(ops[..n], k) <= AddedTo(ops, k)
  {
    if n < |ops| {
      AddedToMonotone(ops[..|ops| - 1], n, k);
      assert ops[..|ops| - 1][..n] == ops[..n];
    } else if n > 0 {
      assert ops[..n] == ops;
      AddedToMonotone(ops[..n - 1], n - 1, k);
      assert ops[..n - 1][..n - 1] == ops[..n - 1];
    }
  }

  lemma PartialWorkAdds(rows: Rows, c: Cursor, n: nat, k: TotalKey, p: Pair)
    requires c.offset <= PhaseLength(rows, c.phase)
    requires n <= |Work(rows, c) + Close(rows, c)|
    ensures 0 <= AddedTo((Work(rows, c) + Close(rows, c))[..n], k) <= AddedTo(Work(rows, c), k)
    ensures SummaryAddedTo((Work(rows, c) + Close(rows, c))[..n], p)
         == if Closing(rows, c) && n > |Work(rows, c)| then SumFor(rows.counts, PerPlugin(p)) else 0
  {
    var work := Work(rows, c);
    AddedToMonotone(work, Min(n, |work|), k);
    if n >= |work| {
      assert work[..|work|] == work;
      PrefixAdds(rows, c, n, k, p);
    } else {
      assert (work + Close(rows, c))[..n] == work[..n];
      WorkAdds(rows, c, k, p);
      SummaryMonotone(work, n, p);
    }
  }

  lemma {:induction false} SummaryMonotone(ops: seq<Op>, n: nat, p: Pair)
    requires n <= |ops|
    requires forall i :: 0 <= i < |ops| ==> SliceOp(ops[i])
    ensures SummaryAddedTo(ops[..n], p) == 0
  {
    if n > 0 {
      assert ops[..n][..n - 1] == ops[..n - 1];
      SummaryMonotone(ops, n - 1, p);
    }
  }

  /**
    The excess never exceeds the slices that were run again; the summary excess is exactly the re-run summary steps.
   */
  lemma {:induction false} ExcessBounded(kv: Kv, query: Query, ts: seq<Trigger>, k: TotalKey, p: Pair)
    requires !kv.cell.Saved?
    ensures var w := Run(Start(kv), query, ts);
            && 0 <= At(w.ledger.totals, k) <= Rerun(Start(kv), query, ts, k)
            && At(w.ledger.summary, p) == SummaryRerun(Start(kv), query, ts, p)
  {
    if ts != [] {
      var init, t := ts[..|ts| - 1], ts[|ts| - 1];
      var w := Run(Start(kv), query, init);
      ExcessBounded(kv, query, init, k, p);
      RunBalanced(kv, query, init, k, p);
      AfterTriggerCells(w.kv, query, t);
      var c := Resume(w.kv, t.now, t.fromOverride);
      var rows := RowsOf(query, c);
      if !Settled(rows, c, t.budget) {
        ApplyAllAdds(w.ledger, TriggerOps(query, c)[..t.budget], k, p);
        PartialWorkAdds(rows, c, t.budget, k, p);
      }
    }
  }

  /** Enough budget for the largest trigger: at most a full chunk and the four closing writes. */
  const FULL_BUDGET := MAX_CHUNK + 4

  lemma {:induction false} FullBudgetSettles(kv: Kv, query: Query, ts: seq<Trigger>)
    requires !kv.cell.Saved?
    requires forall i :: 0 <= i < |ts| ==> ts[i].budget >= FULL_BUDGET
    ensures Run(Start(kv), query, ts).ledger == EmptyKv()
  {
    if ts != [] {
      var init, t := ts[..|ts| - 1], ts[|ts| - 1];
      FullBudgetSettles(kv, query, init);
      RunBalanced(kv, query, init, PerPlugin(Pair("", "")), Pair("", ""));
      AfterTriggerCells(Run(Start(kv), query, init).kv, query, t);
    }
  }

  /** A run without interruptions runs nothing again. */
  lemma {:induction false} NothingIsRerun(kv: Kv, query: Query, ts: seq<Trigger>, k: TotalKey, p: Pair)
    requires !kv.cell.Saved?
    requires forall i :: 0 <= i < |ts| ==> ts[i].budget >= 404
    ensures Rerun(Start(kv), query, ts, k) == 0 && SummaryRerun(Start(kv), query, ts, p) == 0
  {
    if ts != [] {
      var init, t := ts[..|ts| - 1], ts[|ts| - 1];
      NothingIsRerun(kv, query, init, k, p);
      RunBalanced(kv, query, init, k, p);
      AfterTriggerCells(Run(Start(kv), query, init).kv, query, t);
    }
  }

  /**
    Chunked, resumed processing refines the one-shot fold: without interruptions, whenever no
    pass is in progress, every total and summary entry is its old value plus the one-shot sums.
   */
  lemma FailureFreeRunIsOneShot(kv: Kv, query: Query, ts: seq<Trigger>, k: TotalKey, p: Pair)
    requires !kv.cell.Saved?
    requires forall i :: 0 <= i < |ts| ==> ts[i].budget >= 404
    requires !Run(Start(kv), query, ts).kv.cell.Saved?
    ensures var w := Run(Start(kv), query, ts);
            && At(w.kv.totals, k) == At(kv.totals, k) + Accounted(query, w.passes, k)
            && At(w.kv.summary, p) == At(kv.summary, p) + Accounted(query, w.passes, PerPlugin(p))
  {
    RunBalanced(kv, query, ts, k, p);
    FullBudgetSettles(kv, query, ts);
  }

  /** With interruptions anywhere, a finished pass never undercounts and overcounts at most by what was run again. */
  lemma InterruptedRunBracketed(kv: Kv, query: Query, ts: seq<Trigger>, k: TotalKey, p: Pair)
    requires !kv.cell.Saved?
    requires !Run(Start(kv), query, ts).kv.cell.Saved?
    ensures var w := Run(Start(kv), query, ts);
            var excess := At(w.kv.totals, k) - (At(kv.totals, k) + Accounted(query, w.passes, k));
            && 0 <= excess <= Rerun(Start(kv), query, ts, k)
            && At(w.kv.summary, p) == At(kv.summary, p) + Accounted(query, w.passes, PerPlugin(p))
               + SummaryRerun(Start(kv), query, ts, p)
  {
    RunBalanced(kv, query, ts, k, p);
    ExcessBounded(kv, query, ts, k, p);
  }

  // ---------------------------------------------------------------- progress

  /** An upper bound on the triggers one phase still needs at the smallest chunk size. */
  function Slices(items: int): (n: nat)
    ensures n >= 1
    ensures items <= n * MIN_CHUNK
  {
    if items <= 0 then 1 else (items + MIN_CHUNK - 1) / MIN_CHUNK
  }

  /** An upper bound on the settled triggers a pass still needs. */
  function TriggersLeft(rows: Rows, c: Cursor): (n: nat)
  {
    Slices(PhaseLength(rows, c.phase) - c.offset) +
    match c.phase
    case Counts => Slices(|Entries(rows.counts)|) + Slices(|rows.uniques|)
    case PluginTotals => Slices(|rows.uniques|)
    case Uniques => 0
  }

  lemma AdvanceProgresses(rows: Rows, c: Cursor)
    requires c.offset <= PhaseLength(rows, c.phase) && MIN_CHUNK <= c.chunk && !Closing(rows, c)
    ensures TriggersLeft(rows, Advanced(rows, c)) < TriggersLeft(rows, c)
  {
  }

  /** The number of triggers of a run that settled their cursor. */
  function SettledIn(w: World, query: Query, ts: seq<Trigger>): nat {
    if ts == [] then 0
    else
      var v, t := Run(w, query, ts[..|ts| - 1]), ts[|ts| - 1];
      var c := Resume(v.kv, t.now, t.fromOverride);
      SettledIn(w, query, ts[..|ts| - 1]) + if Settled(RowsOf(query, c), c, t.budget) then 1 else 0
  }

  /** One trigger of a pass in progress: it closes the pass, makes progress when it settles, and otherwise stays put. */
  lemma SavedStep(w: World, query: Query, t: Trigger)
    requires w.kv.cell.Saved? && GoodCell(query, w.kv.cell)
    ensures var c := w.kv.cell.cursor;
            var r := Step(w, query, t);
            if Settled(RowsOf(query, c), c, t.budget) && Closing(RowsOf(query, c), c) then r.passes != w.passes
            else
              && r.kv.cell.Saved? && GoodCell(query, r.kv.cell)
              && r.kv.cell.cursor.windowFrom == c.windowFrom && r.kv.cell.cursor.windowTo == c.windowTo
              && TriggersLeft(RowsOf(query, c), r.kv.cell.cursor)
                 + (if Settled(RowsOf(query, c), c, t.budget) then 1 else 0)
                 <= TriggersLeft(RowsOf(query, c), c)
  {
    hide ApplyAll, Work, Advanced, Entries, Closing;
    AfterTriggerCells(w.kv, query, t);
    var c := w.kv.cell.cursor;
    var rows := RowsOf(query, c);
    if Settled(rows, c, t.budget) {
      if Closing(rows, c) {
        assert |Step(w, query, t).passes| == |w.passes| + 1;
      } else {
        AdvancedInRange(rows, c);
        AdvanceProgresses(rows, c);
      }
    }
  }

  /**
    A pass that has a saved cursor and is still unfinished has used fewer settled triggers than
    the bound computed from the three lists, however many interrupted triggers lie between them,
    and it still works on the same window.
   */
  lemma {:induction false} UnfinishedPassBound(w: World, query: Query, ts: seq<Trigger>)
    requires w.kv.cell.Saved? && GoodCell(query, w.kv.cell)
    requires forall n :: 0 <= n <= |ts| ==> Run(w, query, ts[..n]).passes == w.passes
    ensures var r := Run(w, query, ts);
            && r.kv.cell.Saved? && GoodCell(query, r.kv.cell)
            && r.kv.cell.cursor.windowFrom == w.kv.cell.cursor.windowFrom
            && r.kv.cell.cursor.windowTo == w.kv.cell.cursor.windowTo
            && SettledIn(w, query, ts) + TriggersLeft(RowsOf(query, w.kv.cell.cursor), r.kv.cell.cursor)
               <= TriggersLeft(RowsOf(query, w.kv.cell.cursor), w.kv.cell.cursor)
    ensures SettledIn(w, query, ts) < TriggersLeft(RowsOf(query, w.kv.cell.cursor), w.kv.cell.cursor)
  {
    if ts != [] {
      var init, t := ts[..|ts| - 1], ts[|ts| - 1];
      forall n | 0 <= n <= |init| ensures Run(w, query, init[..n]).passes == w.passes {
        assert init[..n] == ts[..n];
      }
      UnfinishedPassBound(w, query, init);
      assert ts[..|ts|] == ts && ts[..|init|] == init;
      SavedStep(Run(w, query, init), query, t);
    }
  }

  lemma RunSnoc(w: World, query: Query, ts: seq<Trigger>, t: Trigger)
    ensures Run(w, query, ts + [t]) == Step(Run(w, query, ts), query, t)
  {
    hide Step;
    assert (ts + [t])[..|ts + [t]| - 1] == ts;
  }

  lemma RunNone(w: World, query: Query)
    ensures Run(w, query, []) == w
  {
  }

  lemma {:induction false} RunFromFront(w: World, query: Query, ts: seq<Trigger>)
    requires ts != []
    ensures Run(w, query, ts) == Run(Step(w, query, ts[0]), query, ts[1..])
    decreases |ts|
  {
    hide Step, Run;
    var init, t := ts[..|ts| - 1], ts[|ts| - 1];
    assert ts == init + [t];
    RunSnoc(w, query, init, t);
    if init == [] {
      assert ts[1..] == [] && ts[0] == t;
      RunNone(w, query);
      RunNone(Step(w, query, t), query);
    } else {
      RunFromFront(w, query, init);
      assert ts[1..] == init[1..] + [t];
      RunSnoc(Step(w, query, ts[0]), query, init[1..], t);
    }
  }

  lemma {:induction false} AllSettledIn(w: World, query: Query, ts: seq<Trigger>)
    requires GoodCell(query, w.kv.cell)
    requires forall i :: 0 <= i < |ts| ==> ts[i].budget >= FULL_BUDGET
    ensures GoodCell(query, Run(w, query, ts).kv.cell) && SettledIn(w, query, ts) == |ts|
  {
    if ts != [] {
      AllSettledIn(w, query, ts[..|ts| - 1]);
      AfterTriggerCells(Run(w, query, ts[..|ts| - 1]).kv, query, ts[|ts| - 1]);
    }
  }

  /** The first settled trigger of a pass leaves a saved cursor and at least one trigger less to do. */
  lemma FreshStep(kv: Kv, query: Query, t: Trigger)
    requires !kv.cell.Saved? && t.budget >= FULL_BUDGET
    ensures var c := Resume(kv, t.now, t.fromOverride);
            var w := Step(Start(kv), query, t);
            && w.passes == [] && w.kv.cell.Saved? && GoodCell(query, w.kv.cell)
            && w.kv.cell.cursor.windowFrom == c.windowFrom && w.kv.cell.cursor.windowTo == c.windowTo
            && TriggersLeft(RowsOf(query, c), w.kv.cell.cursor) < TriggersLeft(RowsOf(query, c), c)
  {
    AfterTriggerCells(kv, query, t);
    var c := Resume(kv, t.now, t.fromOverride);
    AdvanceProgresses(RowsOf(query, c), c);
  }

  lemma SavedPassFinishes(w: World, query: Query, ts: seq<Trigger>)
    requires w.kv.cell.Saved? && GoodCell(query, w.kv.cell)
    requires forall i :: 0 <= i < |ts| ==> ts[i].budget >= FULL_BUDGET
    requires |ts| >= TriggersLeft(RowsOf(query, w.kv.cell.cursor), w.kv.cell.cursor)
    ensures exists n :: 0 <= n <= |ts| && Run(w, query, ts[..n]).passes != w.passes
  {
    if forall n :: 0 <= n <= |ts| ==> Run(w, query, ts[..n]).passes == w.passes {
      AllSettledIn(w, query, ts);
      UnfinishedPassBound(w, query, ts);
      assert false;
    }
  }

  /** A new pass finishes within the bound computed from its three lists when no trigger is interrupted. */
  lemma PassFinishes(kv: Kv, query: Query, ts: seq<Trigger>)
    requires !kv.cell.Saved? && ts != []
    requires forall i :: 0 <= i < |ts| ==> ts[i].budget >= FULL_BUDGET
    requires var c := Resume(kv, ts[0].now, ts[0].fromOverride); |ts| >= TriggersLeft(RowsOf(query, c), c)
    ensures exists n :: 0 <= n <= |ts| && Run(Start(kv), query, ts[..n]).passes != []
  {
    hide Step, TriggersLeft;
    FreshStep(kv, query, ts[0]);
    var rest := ts[1..];
    SavedPassFinishes(Step(Start(kv), query, ts[0]), query, rest);
    var n :| 0 <= n <= |rest| && Run(Step(Start(kv), query, ts[0]), query, rest[..n]).passes != [];
    assert ts[..n + 1][1..] == rest[..n];
    RunFromFront(Start(kv), query, ts[..n + 1]);
  }

  /** Growth, halving and the tuning write-back keep the chunk size between its bounds in every run. */
  lemma {:induction false} ChunkStaysInBounds(kv: Kv, query: Query, ts: seq<Trigger>)
    requires !kv.cell.Saved?
    ensures var r := Run(Start(kv), query, ts).kv;
            && (r.cell.Saved? ==> MIN_CHUNK <= r.cell.cursor.chunk <= MAX_CHUNK)
            && (r.tuning == kv.tuning || (r.tuning.Some? && MIN_CHUNK < r.tuning.value <= MAX_CHUNK))
  {
    if ts != [] {
      ChunkStaysInBounds(kv, query, ts[..|ts| - 1]);
      RunBalanced(kv, query, ts[..|ts| - 1], PerPlugin(Pair("", "")), Pair("", ""));
      AfterTriggerCells(Run(Start(kv), query, ts[..|ts| - 1]).kv, query, ts[|ts| - 1]);
      RunBalanced(kv, query, ts, PerPlugin(Pair("", "")), Pair("", ""));
    }
  }
}
