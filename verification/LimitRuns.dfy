/** The rolling limit and the alarm over whole runs of the issue service. */
module LimitRuns {
  import opened Common
  import opened RollingLimit
  import opened IssueDrafts

  const W := ISSUE_RATE_WINDOW_MS

  /** The saved list is a tail of the full history; what it lacks has left the window. */
  predicate Tail(granted: seq<int>, rate: seq<int>, clock: int) {
    var n := |granted| - |rate|;
    && Sorted(granted) && (forall i :: 0 <= i < |granted| ==> 0 < granted[i] <= clock)
    && 0 <= n && rate == granted[n..]
    && (forall i :: 0 <= i < n ==> granted[i] <= clock - W)
  }

  /** The alarm waits until the last saved request has left the window. */
  predicate Armed(rate: seq<int>, alarm: Option<int>, clock: int) {
    && (rate != [] ==> alarm == Some(rate[|rate| - 1] + W + ALARM_MARGIN_MS))
    && (alarm.Some? ==> alarm.value <= clock + W + ALARM_MARGIN_MS)
  }

  predicate Limited(s: Sys) {
    && 0 < s.clock
    && Tail(s.granted, s.store.rate, s.clock)
    && Armed(s.store.rate, s.store.alarm, s.clock)
  }

  /** Time passing keeps the invariant. */
  lemma Later(s: Sys, t: Sys)
    requires Limited(s) && s.clock <= t.clock
    requires t.granted == s.granted && t.store.rate == s.store.rate && t.store.alarm == s.store.alarm
    ensures Limited(t)
  {
  }

  lemma {:induction false} RecentSplit(a: seq<int>, b: seq<int>, now: int)
    ensures Recent(a + b, now, W) == Recent(a, now, W) + Recent(b, now, W)
    decreases |b|
  {
    if b == [] {
      assert a + b == a;
    } else {
      assert (a + b)[..|a + b| - 1] == a + b[..|b| - 1];
      RecentSplit(a, b[..|b| - 1], now);
    }
  }

  /** What the saved list and the full history say about a later request is the same. */
  lemma SameRecent(s: Sys, now: int)
    requires Limited(s) && s.clock <= now
    ensures Sorted(s.store.rate)
    ensures Recent(s.store.rate, now, W) == Recent(s.granted, now, W)
  {
    hide Recent;
    var n := |s.granted| - |s.store.rate|;
    assert s.granted == s.granted[..n] + s.granted[n..];
    RecentSplit(s.granted[..n], s.granted[n..], now);
    NoneRecent(s.granted[..n], now, W);
  }

  /**
    A request is refused exactly when eight requests of the whole history fall into the window,
    although the saved list is pruned, saved only on success and wiped by the alarm.
   */
  lemma LimitIsExact(s: Sys, now: int)
    requires Limited(s) && s.clock <= now
    ensures ConsumeLimit(s.store, now).1.allowed <==> |Recent(s.granted, now, W)| < ISSUE_RATE_LIMIT
    ensures ConsumeLimit(s.store, now).1.timestamps
         == Recent(s.granted, now, W) + if ConsumeLimit(s.store, now).1.allowed then [now] else []
  {
    hide Recent, Sort;
    SameRecent(s, now);
    RecentIsTail(s.granted, now, W);
    SortOfSorted(Recent(s.granted, now, W));
  }

  /** A refused request leaves the store as it was: even the alarm is set to the time it already has. */
  lemma RefusalChangesNothing(s: Sys, now: int)
    requires Limited(s) && s.clock <= now && !ConsumeLimit(s.store, now).1.allowed
    ensures ConsumeLimit(s.store, now).0 == s.store
  {
    hide Recent, Consume, Sorted;
    LimitIsExact(s, now);
    SameRecent(s, now);
    RecentIsTail(s.store.rate, now, W);
    var recent := Recent(s.store.rate, now, W);
    assert |recent| >= ISSUE_RATE_LIMIT;
    assert recent[|recent| - 1] == s.store.rate[|s.store.rate| - 1];
  }

  lemma TailGrows(granted: seq<int>, rate: seq<int>, clock: int, now: int)
    requires 0 < clock <= now && Tail(granted, rate, clock)
    ensures Tail(granted + [now], Recent(granted, now, W) + [now], now)
  {
    hide Recent;
    RecentIsTail(granted, now, W);
    var recent := Recent(granted, now, W);
    var n := |granted| - |recent|;
    assert (granted + [now])[n..] == granted[n..] + [now];
  }

  lemma LimitedGrant(s: Sys, now: int)
    requires Limited(s) && s.clock <= now && ConsumeLimit(s.store, now).1.allowed
    ensures Limited(Next(s, RequestDraft(now)))
  {
    hide Recent, Consume, Tail;
    LimitIsExact(s, now);
    TailGrows(s.granted, s.store.rate, s.clock, now);
  }

  lemma LimitedRequest(s: Sys, e: Event)
    requires Limited(s) && e.RequestDraft? && Enabled(s, e)
    ensures Limited(Next(s, e))
    ensures s.store.alarm.Some? ==> Next(s, e).store.alarm.Some? && s.store.alarm.value <= Next(s, e).store.alarm.value
  {
    hide Recent, Consume, Tail;
    LimitIsExact(s, e.now);
    if ConsumeLimit(s.store, e.now).1.allowed {
      LimitedGrant(s, e.now);
    } else {
      RefusalChangesNothing(s, e.now);
      Later(s, Next(s, e));
    }
  }

  lemma TailGone(granted: seq<int>, rate: seq<int>, clock: int, now: int)
    requires Tail(granted, rate, clock) && clock <= now
    requires rate != [] ==> rate[|rate| - 1] <= now - W
    ensures Tail(granted, [], now)
  {
    var n := |granted| - |rate|;
    forall i | 0 <= i < |granted| ensures granted[i] <= now - W {
      if i >= n {
        assert rate[i - n] == granted[i] && rate[|rate| - 1] == granted[|granted| - 1];
      }
    }
  }

  /** By the time the alarm fires every request has left the window. */
  lemma LimitedWipe(s: Sys, now: int)
    requires Limited(s) && Enabled(s, AlarmFires(now))
    ensures Limited(Next(s, AlarmFires(now)))
  {
    hide Consume, CompleteDraft, ClaimDraft, ReleaseDraft, Tail;
    TailGone(s.granted, s.store.rate, s.clock, now);
  }

  lemma LimitedStep(s: Sys, e: Event)
    requires Limited(s) && Enabled(s, e)
    ensures Limited(Next(s, e))
  {
    hide Consume, Tail, Armed;
    match e
    case RequestDraft(_) => LimitedRequest(s, e);
    case AlarmFires(now) => LimitedWipe(s, now);
    case _ => Later(s, Next(s, e));
  }

  lemma {:induction false} LimitedAlways(s: Sys, es: seq<Event>)
    requires IsRun(s, es) && Limited(s)
    ensures Limited(After(s, es))
    decreases |es|
  {
    hide Limited, Next, Enabled;
    if es != [] {
      LimitedStep(s, es[0]);
      LimitedAlways(Next(s, es[0]), es[1..]);
    }
  }

  /** Any nine consecutive allowed requests span at least the whole window. */
  predicate Spaced(g: seq<int>) {
    forall i :: 0 <= i && i + ISSUE_RATE_LIMIT < |g| ==> g[i + ISSUE_RATE_LIMIT] - g[i] >= W
  }

  lemma SpacedStep(s: Sys, e: Event)
    requires Limited(s) && Enabled(s, e) && Spaced(s.granted)
    ensures Spaced(Next(s, e).granted)
  {
    hide Consume, Recent;
    if e.RequestDraft? {
      LimitIsExact(s, e.now);
      RecentIsTail(s.granted, e.now, W);
    }
  }

  /** In every run the allowed requests respect the limit in every window. */
  lemma {:induction false} NineSpanTheWindow(s: Sys, es: seq<Event>)
    requires IsRun(s, es) && Limited(s) && Spaced(s.granted)
    ensures Spaced(After(s, es).granted)
    decreases |es|
  {
    hide Limited, Next, Enabled, Spaced;
    if es != [] {
      LimitedStep(s, es[0]);
      SpacedStep(s, es[0]);
      NineSpanTheWindow(Next(s, es[0]), es[1..]);
    }
  }

  /** No window ever holds more than the limit. */
  lemma AtMostTheLimit(s: Sys, now: int)
    requires Limited(s) && Spaced(s.granted) && s.clock <= now
    ensures |Recent(s.granted, now, W)| <= ISSUE_RATE_LIMIT
  {
    hide Recent;
    var first := |s.granted| - |Recent(s.granted, now, W)|;
    assert 0 <= first && first + ISSUE_RATE_LIMIT < |s.granted| ==>
        s.granted[first + ISSUE_RATE_LIMIT] - s.granted[first] >= W;
    RecentIsTail(s.granted, now, W);
  }

  /**
    The time a refusal names is exactly the time from which a request is allowed, and the rest it reports is what is
    left.
   */
  lemma ResetIsExact(s: Sys, now: int, later: int)
    requires Limited(s) && Spaced(s.granted) && s.clock <= now <= later
    ensures var v := ConsumeLimit(s.store, now).1;
            && v.remaining == ISSUE_RATE_LIMIT - |v.timestamps|
            && (!v.allowed ==> (ConsumeLimit(s.store, later).1.allowed <==> later >= v.resetAt))
  {
    hide Recent, Sort;
    LimitIsExact(s, now);
    LimitIsExact(s, later);
    AtMostTheLimit(s, now);
    RecentIsTail(s.granted, now, W);
    RecentIsTail(s.granted, later, W);
  }

  // ---------------------------------------------------------------- what the alarm wipes

  /** A submitted draft holds its issue; any other draft expires before the alarm. */
  predicate AlarmAfterDrafts(s: Sys) {
    forall id :: id in s.store.drafts ==>
      var d := s.store.drafts[id];
      if d.status == Submitted then d.issue.Some? && Usable(d.issue.value)
      else s.store.alarm.Some? && d.expiresAt < s.store.alarm.value
  }

  /** A draft is saved within half an hour of its request. */
  predicate Prompt(e: Event) { e.SaveDraft? ==> e.now - e.requested <= ISSUE_DRAFT_TTL_MS }

  lemma RecentRequestIsSaved(s: Sys, requested: int, now: int)
    requires Limited(s) && s.clock <= now && requested in s.granted && now - requested <= ISSUE_DRAFT_TTL_MS
    ensures s.store.alarm.Some? && requested + W < s.store.alarm.value
  {
    var n := |s.granted| - |s.store.rate|;
    var i :| 0 <= i < |s.granted| && s.granted[i] == requested;
    assert i >= n;
    assert s.store.rate[i - n] == requested;
    assert s.store.rate[|s.store.rate| - 1] == s.granted[|s.granted| - 1];
  }

  lemma AlarmStep(s: Sys, e: Event)
    requires Limited(s) && Enabled(s, e) && AlarmAfterDrafts(s) && Prompt(e)
    ensures AlarmAfterDrafts(Next(s, e))
  {
    hide Consume, Tail, Armed;
    match e
    case RequestDraft(_) => LimitedRequest(s, e);
    case SaveDraft(now, id, requested) => RecentRequestIsSaved(s, requested, now);
    case _ =>
  }

  predicate AllPrompt(es: seq<Event>) { forall i :: 0 <= i < |es| ==> Prompt(es[i]) }

  lemma {:induction false} AlarmAlways(s: Sys, es: seq<Event>)
    requires IsRun(s, es) && Limited(s) && AlarmAfterDrafts(s) && AllPrompt(es)
    ensures Limited(After(s, es)) && AlarmAfterDrafts(After(s, es))
    decreases |es|
  {
    hide Limited, Next, Enabled, AlarmAfterDrafts;
    if es != [] {
      LimitedStep(s, es[0]);
      AlarmStep(s, es[0]);
      AlarmAlways(Next(s, es[0]), es[1..]);
    }
  }

  /**
    When the alarm fires, every draft it wipes that is not submitted has expired, and it changes
    no later answer of the limit.
   */
  lemma AlarmWipesOnlyTheExpired(clock: int, es: seq<Event>, now: int, later: int)
    requires 0 < clock && IsRun(Init(clock), es) && AllPrompt(es)
    requires Enabled(After(Init(clock), es), AlarmFires(now)) && now <= later
    ensures var s := After(Init(clock), es);
            var t := Next(s, AlarmFires(now));
            && (forall id :: id in s.store.drafts && s.store.drafts[id].status != Submitted ==>
               s.store.drafts[id].expiresAt <= now)
            && ConsumeLimit(t.store, later).1 == ConsumeLimit(s.store, later).1
  {
    hide Recent, Sort;
    var s := After(Init(clock), es);
    assert Limited(Init(clock));
    AlarmAlways(Init(clock), es);
    LimitedStep(s, AlarmFires(now));
    var t := Next(s, AlarmFires(now));
    SameRecent(s, later);
    SameRecent(t, later);
  }
}
