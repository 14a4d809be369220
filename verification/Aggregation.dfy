/**
  The resumable statistics aggregation of the plugin statistics worker.

  A trigger performs a fixed list of key-value writes. A crash, a thrown error or a
  killed invocation performs a prefix of that list, so every theorem below is about
  runs in which each trigger stops after an arbitrary number of writes.
 */
module Aggregation {
  import opened Common

  const MIN_CHUNK := 8
  const MAX_CHUNK := 400
  const EPOCH := 0

  datatype Count = Count(kind: string, plugin: string, version: string, events: nat)
  datatype DayKey = DayKey(kind: string, plugin: string, day: string)
  datatype Unique = Unique(key: DayKey, uniq: nat)

  /** What the analytics queries return for one window. */
  datatype Rows = Rows(counts: seq<Count>, uniques: seq<Unique>)

  /** The analytics queries: a fixed window always returns the same rows. */
  type Query = (int, int) -> Rows

  datatype Pair = Pair(kind: string, plugin: string)
  datatype TotalKey = Versioned(pair: Pair, version: string) | PerPlugin(pair: Pair)

  datatype Phase = Counts | PluginTotals | Uniques
  datatype Cursor = Cursor(windowFrom: int, windowTo: int, phase: Phase, offset: nat, chunk: nat)

  /** The content of `agg:state`. */
  datatype CursorCell = Empty | Corrupt | Saved(cursor: Cursor)

  /** The archive namespace. */
  datatype Kv = Kv(totals: map<TotalKey, int>, uniqd: map<DayKey, int>, summary: map<Pair, int>,
                   watermark: Option<int>, cell: CursorCell, tuning: Option<int>)

  /** One key-value write. `AddTotal` and `AddSummary` are a read followed by a write of the same key. */
  datatype Op =
    | AddTotal(key: TotalKey, delta: int)
    | PutUnique(day: DayKey, uniq: nat)
    | AddSummary(counts: seq<Count>)
    | PutWatermark(time: int)
    | DeleteCursor
    | PutTuning(size: int)
    | PutCursor(cursor: Cursor)

  // ---------------------------------------------------------------- sums over rows

  function PairOf(c: Count): Pair { Pair(c.kind, c.plugin) }

  function KeyOf(c: Count): TotalKey { Versioned(PairOf(c), c.version) }

  /** The events of the rows that belong to a key, in one pass over the window. */
  function SumFor(counts: seq<Count>, k: TotalKey): (n: nat)
  {
    if counts == [] then 0
    else SumFor(counts[..|counts| - 1], k) + (if Feeds(counts[|counts| - 1], k) then counts[|counts| - 1].events else 0)
  }

  predicate Feeds(c: Count, k: TotalKey) {
    match k
    case Versioned(_, _) => KeyOf(c) == k
    case PerPlugin(p) => PairOf(c) == p
  }

  datatype Entry = Entry(pair: Pair, delta: nat)

  /** The insertion-ordered `pluginTotals` map, built row by row. */
  function Entries(counts: seq<Count>): (es: seq<Entry>)
  {
    if counts == [] then []
    else
      var c := counts[|counts| - 1];
      Bump(Entries(counts[..|counts| - 1]), PairOf(c), c.events)
  }

  /** Raises the entry of a pair in an insertion-ordered map; a new pair starts at zero, at the end. */
  function Bump(es: seq<Entry>, p: Pair, d: nat): (r: seq<Entry>)
  {
    if es == [] then [Entry(p, d)]
    else if es[0].pair == p then [Entry(p, es[0].delta + d)] + es[1..]
    else [es[0]] + Bump(es[1..], p, d)
  }

  function EntrySum(es: seq<Entry>, p: Pair): (n: nat)
  {
    if es == [] then 0 else (if es[0].pair == p then es[0].delta else 0) + EntrySum(es[1..], p)
  }

  lemma {:induction false} BumpAdds(es: seq<Entry>, p: Pair, d: nat, q: Pair)
    ensures EntrySum(Bump(es, p, d), q) == EntrySum(es, q) + if p == q then d else 0
  {
    if es != [] {
      if es[0].pair == p {
        assert Bump(es, p, d)[1..] == es[1..];
      } else {
        BumpAdds(es[1..], p, d, q);
        assert Bump(es, p, d)[1..] == Bump(es[1..], p, d);
      }
    }
  }

  /** Grouping the rows into the plugin map loses and adds nothing. */
  lemma {:induction false} EntriesSum(counts: seq<Count>, p: Pair)
    ensures EntrySum(Entries(counts), p) == SumFor(counts, PerPlugin(p))
  {
    if counts != [] {
      var c := counts[|counts| - 1];
      EntriesSum(counts[..|counts| - 1], p);
      BumpAdds(Entries(counts[..|counts| - 1]), PairOf(c), c.events, p);
    }
  }

  predicate Has(es: seq<Entry>, p: Pair) { exists i :: 0 <= i < |es| && es[i].pair == p }

  /** A pair that is there keeps its place, and a new one comes last. */
  lemma {:induction false} BumpPairs(es: seq<Entry>, p: Pair, d: nat)
    ensures var r := Bump(es, p, d);
            && |r| == (if Has(es, p) then |es| else |es| + 1)
            && (forall i :: 0 <= i < |es| ==> r[i].pair == es[i].pair)
            && (!Has(es, p) ==> r[|es|].pair == p)
  {
    if es != [] && es[0].pair != p {
      BumpPairs(es[1..], p, d);
      var r, rest := Bump(es, p, d), Bump(es[1..], p, d);
      assert forall i :: 1 <= i < |r| ==> r[i] == rest[i - 1];
      if Has(es, p) {
        var i :| 0 <= i < |es| && es[i].pair == p;
        assert es[1..][i - 1].pair == p;
      }
    }
  }

  /** Entry by entry, the row at which its pair first occurs. */
  predicate FirstRows(counts: seq<Count>, es: seq<Entry>, at: seq<nat>) {
    && |at| == |es|
    && (forall i :: 0 <= i < |at| ==> at[i] < |counts| && PairOf(counts[at[i]]) == es[i].pair)
    && (forall i, j :: 0 <= i < |at| && 0 <= j < at[i] ==> PairOf(counts[j]) != es[i].pair)
    && (forall i, j :: 0 <= i < j < |at| ==> at[i] < at[j])
    && (forall j :: 0 <= j < |counts| ==> Has(es, PairOf(counts[j])))
  }

  lemma BumpHas(es: seq<Entry>, p: Pair, d: nat, q: Pair)
    ensures Has(Bump(es, p, d), q) <==> Has(es, q) || q == p
  {
    hide Bump;
    BumpPairs(es, p, d);
    var r := Bump(es, p, d);
    if Has(es, p) {
      var i :| 0 <= i < |es| && es[i].pair == p;
      assert r[i].pair == p;
    } else {
      assert r[|es|].pair == p;
    }
    if Has(es, q) {
      var i :| 0 <= i < |es| && es[i].pair == q;
      assert r[i].pair == q;
    }
  }

  lemma KnownPair(counts: seq<Count>, c: Count, es: seq<Entry>, at: seq<nat>)
    requires FirstRows(counts, es, at) && Has(es, PairOf(c))
    ensures FirstRows(counts + [c], Bump(es, PairOf(c), c.events), at)
  {
    hide Bump, Has;
    var r, all := Bump(es, PairOf(c), c.events), counts + [c];
    BumpPairs(es, PairOf(c), c.events);
    assert forall j :: 0 <= j < |counts| ==> all[j] == counts[j];
    forall j | 0 <= j < |all| ensures Has(r, PairOf(all[j])) {
      BumpHas(es, PairOf(c), c.events, PairOf(all[j]));
    }
  }

  lemma NewPair(counts: seq<Count>, c: Count, es: seq<Entry>, at: seq<nat>)
    requires FirstRows(counts, es, at) && !Has(es, PairOf(c))
    ensures FirstRows(counts + [c], Bump(es, PairOf(c), c.events), at + [|counts|])
  {
    hide Bump, Has;
    var r, all := Bump(es, PairOf(c), c.events), counts + [c];
    BumpPairs(es, PairOf(c), c.events);
    assert forall j :: 0 <= j < |counts| ==> all[j] == counts[j] && Has(es, PairOf(counts[j]));
    forall j | 0 <= j < |all| ensures Has(r, PairOf(all[j])) {
      BumpHas(es, PairOf(c), c.events, PairOf(all[j]));
    }
  }

  /**
    The map holds each pair of the rows once, in the order in which the pairs first occur, and no other pair, each with
    the sum of its rows.
   */
  lemma {:induction false} EntriesInOrder(counts: seq<Count>) returns (at: seq<nat>)
    ensures FirstRows(counts, Entries(counts), at)
    ensures forall i, j :: 0 <= i < j < |Entries(counts)| ==> Entries(counts)[i].pair != Entries(counts)[j].pair
    ensures forall i :: 0 <= i < |Entries(counts)| ==>
              Entries(counts)[i].delta == SumFor(counts, PerPlugin(Entries(counts)[i].pair))
  {
    at := FirstRowsOf(counts);
    hide Entries;
    var es := Entries(counts);
    forall i | 0 <= i < |es| ensures es[i].delta == SumFor(counts, PerPlugin(es[i].pair)) {
      EntriesSum(counts, es[i].pair);
      OnlyEntry(es, i);
    }
  }

  lemma {:induction false} FirstRowsOf(counts: seq<Count>) returns (at: seq<nat>)
    ensures FirstRows(counts, Entries(counts), at)
  {
    if counts == [] {
      at := [];
    } else {
      var init, c := counts[..|counts| - 1], counts[|counts| - 1];
      at := FirstRowsOf(init);
      assert counts == init + [c];
      hide FirstRows, Bump, Has;
      if Has(Entries(init), PairOf(c)) {
        KnownPair(init, c, Entries(init), at);
      } else {
        NewPair(init, c, Entries(init), at);
        at := at + [|init|];
      }
    }
  }

  lemma {:induction false} NoEntry(es: seq<Entry>, p: Pair)
    requires forall j :: 0 <= j < |es| ==> es[j].pair != p
    ensures EntrySum(es, p) == 0
  {
    if es != [] {
      NoEntry(es[1..], p);
    }
  }

  lemma {:induction false} OnlyEntry(es: seq<Entry>, i: nat)
    requires i < |es| && forall j :: 0 <= j < |es| && j != i ==> es[j].pair != es[i].pair
    ensures EntrySum(es, es[i].pair) == es[i].delta
  {
    if i == 0 {
      NoEntry(es[1..], es[0].pair);
    } else {
      assert es[0].pair != es[i].pair;
      OnlyEntry(es[1..], i - 1);
    }
  }

  lemma {:induction false} EntrySumSplit(a: seq<Entry>, b: seq<Entry>, p: Pair)
    ensures EntrySum(a + b, p) == EntrySum(a, p) + EntrySum(b, p)
  {
    if a == [] {
      assert a + b == b;
    } else {
      assert (a + b)[1..] == a[1..] + b;
      EntrySumSplit(a[1..], b, p);
    }
  }

  // ---------------------------------------------------------------- effect of writes

  function Apply(kv: Kv, op: Op): Kv {
    match op
    case AddTotal(k, d) => kv.(totals := kv.totals[k := At(kv.totals, k) + d])
    case PutUnique(k, u) => kv.(uniqd := kv.uniqd[k := u])
    case AddSummary(counts) => kv.(summary := Summarised(kv.summary, counts))
    case PutWatermark(t) => kv.(watermark := Some(t))
    case DeleteCursor => kv.(cell := Empty)
    case PutTuning(n) => kv.(tuning := Some(n))
    case PutCursor(c) => kv.(cell := Saved(c))
  }

  function ApplyAll(kv: Kv, ops: seq<Op>): Kv {
    if ops == [] then kv else Apply(ApplyAll(kv, ops[..|ops| - 1]), ops[|ops| - 1])
  }

  /** The summary object after adding every row of the window to its plugin entry. */
  function Summarised(summary: map<Pair, int>, counts: seq<Count>): map<Pair, int> {
    if counts == [] then summary
    else
      var s := Summarised(summary, counts[..|counts| - 1]);
      var c := counts[|counts| - 1];
      s[PairOf(c) := At(s, PairOf(c)) + c.events]
  }

  /** What a list of writes adds to one running total. */
  function AddedTo(ops: seq<Op>, k: TotalKey): int {
    if ops == [] then 0
    else AddedTo(ops[..|ops| - 1], k) +
         match ops[|ops| - 1]
         case AddTotal(key, d) => if key == k then d else 0
         case _ => 0
  }

  /** What a list of writes adds to one entry of the public summary. */
  function SummaryAddedTo(ops: seq<Op>, p: Pair): int {
    if ops == [] then 0
    else SummaryAddedTo(ops[..|ops| - 1], p) +
         match ops[|ops| - 1]
         case AddSummary(counts) => SumFor(counts, PerPlugin(p))
         case _ => 0
  }

  lemma {:induction false} SummarisedAdds(summary: map<Pair, int>, counts: seq<Count>, p: Pair)
    ensures At(Summarised(summary, counts), p) == At(summary, p) + SumFor(counts, PerPlugin(p))
  {
    if counts != [] {
      SummarisedAdds(summary, counts[..|counts| - 1], p);
    }
  }

  lemma {:induction false} ApplyAllAdds(kv: Kv, ops: seq<Op>, k: TotalKey, p: Pair)
    ensures At(ApplyAll(kv, ops).totals, k) == At(kv.totals, k) + AddedTo(ops, k)
    ensures At(ApplyAll(kv, ops).summary, p) == At(kv.summary, p) + SummaryAddedTo(ops, p)
  {
    if ops != [] {
      var init := ops[..|ops| - 1];
      ApplyAllAdds(kv, init, k, p);
      if ops[|ops| - 1].AddSummary? {
        SummarisedAdds(ApplyAll(kv, init).summary, ops[|ops| - 1].counts, p);
      }
    }
  }

  lemma {:induction false} AddedToSplit(a: seq<Op>, b: seq<Op>, k: TotalKey, p: Pair)
    ensures AddedTo(a + b, k) == AddedTo(a, k) + AddedTo(b, k)
    ensures SummaryAddedTo(a + b, p) == SummaryAddedTo(a, p) + SummaryAddedTo(b, p)
  {
    if b == [] {
      assert a + b == a;
    } else {
      assert (a + b)[..|a + b| - 1] == a + b[..|b| - 1];
      AddedToSplit(a, b[..|b| - 1], k, p);
    }
  }

  lemma {:induction false} ApplyAllSplit(kv: Kv, a: seq<Op>, b: seq<Op>)
    ensures ApplyAll(kv, a + b) == ApplyAll(ApplyAll(kv, a), b)
  {
    if b == [] {
      assert a + b == a;
    } else {
      assert (a + b)[..|a + b| - 1] == a + b[..|b| - 1];
      ApplyAllSplit(kv, a, b[..|b| - 1]);
    }
  }

  // ---------------------------------------------------------------- one trigger

  /** `readChunkSize`. */
  function ChunkSize(tuning: Option<int>): (c: nat)
    ensures MIN_CHUNK <= c <= MAX_CHUNK
    ensures tuning.Some? && MIN_CHUNK <= tuning.value <= MAX_CHUNK ==> c == tuning.value
    ensures !(tuning.Some? && MIN_CHUNK <= tuning.value <= MAX_CHUNK) ==> c == MAX_CHUNK
  {
    if tuning.Some? && MIN_CHUNK <= tuning.value <= MAX_CHUNK then tuning.value else MAX_CHUNK
  }

  function Mark(kv: Kv): int {
    match kv.watermark case Some(t) => t case None => EPOCH
  }

  /** The cursor a trigger works with: the saved one, or a fresh one for a new window. */
  function Resume(kv: Kv, now: int, fromOverride: Option<int>): Cursor {
    match kv.cell
    case Saved(c) => c
    case _ =>
      Cursor(if fromOverride.Some? then fromOverride.value else Mark(kv), now, Counts, 0, ChunkSize(kv.tuning))
  }

  /** The part of a list a cursor may process in one trigger. */
  function Slice<T>(s: seq<T>, c: Cursor): (r: seq<T>)
    ensures |r| == Min(c.chunk, Max(0, |s| - c.offset))
  {
    if c.offset >= |s| then [] else s[c.offset..Min(c.offset + c.chunk, |s|)]
  }

  function PhaseLength(rows: Rows, phase: Phase): nat {
    match phase
    case Counts => |rows.counts|
    case PluginTotals => |Entries(rows.counts)|
    case Uniques => |rows.uniques|
  }

  function CountOps(cs: seq<Count>): (ops: seq<Op>)
    ensures |ops| == |cs|
    ensures forall i :: 0 <= i < |cs| ==> ops[i] == AddTotal(KeyOf(cs[i]), cs[i].events)
  {
    seq(|cs|, i requires 0 <= i < |cs| => AddTotal(KeyOf(cs[i]), cs[i].events))
  }

  function EntryOps(es: seq<Entry>): (ops: seq<Op>)
    ensures |ops| == |es|
    ensures forall i :: 0 <= i < |es| ==> ops[i] == AddTotal(PerPlugin(es[i].pair), es[i].delta)
  {
    seq(|es|, i requires 0 <= i < |es| => AddTotal(PerPlugin(es[i].pair), es[i].delta))
  }

  function UniqueOps(us: seq<Unique>): (ops: seq<Op>)
    ensures |ops| == |us|
    ensures forall i :: 0 <= i < |us| ==> ops[i] == PutUnique(us[i].key, us[i].uniq)
  {
    seq(|us|, i requires 0 <= i < |us| => PutUnique(us[i].key, us[i].uniq))
  }

  /** The writes of the slice a trigger processes. */
  function Work(rows: Rows, c: Cursor): (ops: seq<Op>)
    ensures |ops| == Min(c.chunk, Max(0, PhaseLength(rows, c.phase) - c.offset))
  {
    match c.phase
    case Counts => CountOps(Slice(rows.counts, c))
    case PluginTotals => EntryOps(Slice(Entries(rows.counts), c))
    case Uniques => UniqueOps(Slice(rows.uniques, c))
  }

  function Moved(rows: Rows, c: Cursor): nat {
    c.offset + |Work(rows, c)|
  }

  /** Whether a trigger with this cursor is the last one of the pass. */
  predicate Closing(rows: Rows, c: Cursor) {
    c.phase == Uniques && Moved(rows, c) >= |rows.uniques|
  }

  /** The cursor after the slice, before the chunk size grows. */
  function Advanced(rows: Rows, c: Cursor): Cursor {
    if Moved(rows, c) >= PhaseLength(rows, c.phase) && c.phase != Uniques
    then c.(phase := if c.phase == Counts then PluginTotals else Uniques, offset := 0)
    else c.(offset := Moved(rows, c))
  }

  function Grown(c: Cursor): Cursor {
    c.(chunk := Min(MAX_CHUNK, c.chunk + 1))
  }

  /** A quarter more, rounded up and capped at the maximum. */
  function Tuned(chunk: nat): int {
    Min(MAX_CHUNK, (5 * chunk + 3) / 4)
  }

  function Halved(c: Cursor): Cursor {
    c.(chunk := Max(MIN_CHUNK, c.chunk / 2))
  }

  /** The writes after the slice: either the whole pass is closed or the cursor is saved. */
  function Close(rows: Rows, c: Cursor): seq<Op> {
    if Closing(rows, c)
    then [AddSummary(rows.counts), PutWatermark(c.windowTo), DeleteCursor, PutTuning(Tuned(c.chunk))]
    else [PutCursor(Grown(Advanced(rows, c)))]
  }

  function RowsOf(query: Query, c: Cursor): Rows {
    query(c.windowFrom, c.windowTo)
  }

  function TriggerOps(query: Query, c: Cursor): seq<Op> {
    Work(RowsOf(query, c), c) + Close(RowsOf(query, c), c)
  }

  /** One trigger: when it runs, how many of its writes happen, and whether its error handler gets to write. */
  datatype Trigger = Trigger(now: int, fromOverride: Option<int>, budget: nat, handlerWrites: bool)

  function HandlerEffect(kv: Kv): Kv {
    if kv.cell.Saved? then kv.(cell := Saved(Halved(kv.cell.cursor))) else kv
  }

  /** The archive after one trigger. */
  function AfterTrigger(kv: Kv, query: Query, t: Trigger): Kv {
    var ops := TriggerOps(query, Resume(kv, t.now, t.fromOverride));
    if t.budget >= |ops| then ApplyAll(kv, ops)
    else
      var partial := ApplyAll(kv, ops[..t.budget]);
      if t.handlerWrites then HandlerEffect(partial) else partial
  }

  datatype Outcome =
    | Completed(windowFrom: int, windowTo: int, activeKeys: nat, uniqueDays: nat)
    | Progress(phase: Phase, offset: nat, total: nat)
    | Failed

  /** What a trigger that is not interrupted reports. */
  function Report(rows: Rows, c: Cursor): Outcome {
    if Closing(rows, c) then Completed(c.windowFrom, c.windowTo, |rows.counts|, |rows.uniques|)
    else
      var next := Advanced(rows, c);
      Progress(next.phase, next.offset, PhaseLength(rows, next.phase))
  }

  /** What a trigger answers. */
  function Answer(kv: Kv, query: Query, t: Trigger): Outcome {
    var c := Resume(kv, t.now, t.fromOverride);
    if t.budget < |TriggerOps(query, c)| then Failed else Report(RowsOf(query, c), c)
  }

  lemma PrefixOfSum(kv: Kv, a: seq<Op>, b: seq<Op>, n: nat)
    requires n >= |a|
    ensures var m := Min(n - |a|, |b|);
            ApplyAll(ApplyAll(kv, a), b[..m]) == if n >= |a + b| then ApplyAll(kv, a + b)
                else ApplyAll(kv, (a + b)[..n])
  {
    var m := Min(n - |a|, |b|);
    ApplyAllSplit(kv, a, b[..m]);
    if n >= |a + b| {
      assert b[..m] == b;
    } else {
      assert (a + b)[..n] == a + b[..m];
    }
  }

  /** The worker against a mutable archive. */
  class Archive {
    var totals: map<TotalKey, int>
    var uniqd: map<DayKey, int>
    var summary: map<Pair, int>
    var watermark: Option<int>
    var cell: CursorCell
    var tuning: Option<int>

    function Snapshot(): Kv
      reads this
    {
      Kv(totals, uniqd, summary, watermark, cell, tuning)
    }

    /** One read-modify-write against the namespace. */
    method Perform(op: Op)
      modifies this
      ensures Snapshot() == Apply(old(Snapshot()), op)
    {
      match op {
        case AddTotal(k, d) =>
          var current := At(totals, k);
          totals := totals[k := current + d];
        case PutUnique(k, u) => uniqd := uniqd[k := u];
        case AddSummary(counts) =>
          var s := summary;
          for i := 0 to |counts|
            invariant s == Summarised(summary, counts[..i])
          {
            var p := PairOf(counts[i]);
            assert counts[..i + 1][..i] == counts[..i];
            s := s[p := At(s, p) + counts[i].events];
          }
          assert counts[..|counts|] == counts;
          summary := s;
        case PutWatermark(t) => watermark := Some(t);
        case DeleteCursor => cell := Empty;
        case PutTuning(n) => tuning := Some(n);
        case PutCursor(c) => cell := Saved(c);
      }
    }

    /** The `catch` block. */
    method OnError(handlerWrites: bool)
      modifies this`cell
      ensures Snapshot() == if handlerWrites then HandlerEffect(old(Snapshot())) else old(Snapshot())
    {
      if handlerWrites && cell.Saved? {
        cell := Saved(Halved(cell.cursor));
      }
    }

    /** Performs writes in order until they are done or the budget is used up. */
    method PerformAll(ops: seq<Op>, budget: nat) returns (left: nat, ok: bool)
      modifies this
      ensures ok <==> budget >= |ops|
      ensures ok ==> left == budget - |ops|
      ensures Snapshot() == ApplyAll(old(Snapshot()), ops[..Min(budget, |ops|)])
    {
      left := budget;
      for i := 0 to |ops|
        invariant left == budget - i
        invariant Snapshot() == ApplyAll(old(Snapshot()), ops[..i])
      {
        if left == 0 {
          return left, false;
        }
        Perform(ops[i]);
        assert ops[..i + 1][..i] == ops[..i];
        left := left - 1;
      }
      ok := true;
    }

    /** The slice of the current phase. */
    method RunSlice(rows: Rows, state: Cursor, budget: nat) returns (left: nat, ok: bool)
      modifies this
      ensures ok <==> budget >= |Work(rows, state)|
      ensures ok ==> left == budget - |Work(rows, state)|
      ensures Snapshot() == ApplyAll(old(Snapshot()), Work(rows, state)[..Min(budget, |Work(rows, state)|)])
    {
      match state.phase {
        case Counts => left, ok := PerformAll(CountOps(Slice(rows.counts, state)), budget);
        case PluginTotals => left, ok := PerformAll(EntryOps(Slice(Entries(rows.counts), state)), budget);
        case Uniques => left, ok := PerformAll(UniqueOps(Slice(rows.uniques, state)), budget);
      }
    }

    /** The end of a trigger: close the pass or save the cursor. */
    method Settle(rows: Rows, start: Cursor, budget: nat) returns (r: Outcome)
      modifies this
      ensures Snapshot() == ApplyAll(old(Snapshot()), Close(rows, start)[..Min(budget, |Close(rows, start)|)])
      ensures r == Failed <==> budget < |Close(rows, start)|
      ensures r != Failed ==> r == Report(rows, start)
    {
      var length := PhaseLength(rows, start.phase);
      var state := start.(offset := start.offset + Min(start.chunk, Max(0, length - start.offset)));
      var closing: seq<Op>;
      if state.phase == Uniques && state.offset >= |rows.uniques| {
        closing := [AddSummary(rows.counts), PutWatermark(state.windowTo), DeleteCursor, PutTuning(Tuned(state.chunk))];
        r := Completed(state.windowFrom, state.windowTo, |rows.counts|, |rows.uniques|);
      } else {
        if state.phase != Uniques && state.offset >= length {
          state := state.(phase := if state.phase == Counts then PluginTotals else Uniques, offset := 0);
        }
        state := state.(chunk := Min(MAX_CHUNK, state.chunk + 1));
        closing := [PutCursor(state)];
        r := Progress(state.phase, state.offset, PhaseLength(rows, state.phase));
      }
      assert closing == Close(rows, start);
      var left, ok := PerformAll(closing, budget);
      if !ok {
        r := Failed;
      }
    }

    /** `runAggregation`, with a bound on the number of writes that succeed. */
    method RunAggregation(query: Query, t: Trigger) returns (r: Outcome)
      modifies this
      ensures Snapshot() == AfterTrigger(old(Snapshot()), query, t)
      ensures r == Answer(old(Snapshot()), query, t)
    {
      var state := if cell.Saved? then cell.cursor
                   else Cursor(if t.fromOverride.Some? then t.fromOverride.value else Mark(Snapshot()),
                               t.now, Counts, 0, ChunkSize(tuning));
      ghost var before := Snapshot();
      assert state == Resume(before, t.now, t.fromOverride);
      var rows := query(state.windowFrom, state.windowTo);
      ghost var work := Work(rows, state);
      ghost var closing := Close(rows, state);
      var left, ok := RunSlice(rows, state, t.budget);
      if !ok {
        assert TriggerOps(query, state)[..t.budget] == work[..t.budget];
        OnError(t.handlerWrites);
        return Failed;
      }
      assert work[..|work|] == work;
      r := Settle(rows, state, left);
      PrefixOfSum(before, work, closing, t.budget);
      if r == Failed {
        OnError(t.handlerWrites);
      }
    }
  }
}
