/** The rolling request limit: at most `limit` timestamps inside the window are kept and counted. */
module RollingLimit {
  import opened Common

  const ISSUE_RATE_LIMIT := 8
  const ISSUE_RATE_WINDOW_MS := 60 * 60 * 1000

  datatype Verdict = Verdict(allowed: bool, timestamps: seq<int>, remaining: int, resetAt: int)

  predicate Sorted(s: seq<int>) {
    forall i, j :: 0 <= i < j < |s| ==> s[i] <= s[j]
  }

  /** The timestamps inside the window. */
  function Recent(ts: seq<int>, now: int, window: int): (r: seq<int>)
    ensures forall i :: 0 <= i < |r| ==> r[i] > now - window
  {
    if ts == [] then []
    else Recent(ts[..|ts| - 1], now, window) + if ts[|ts| - 1] > now - window then [ts[|ts| - 1]] else []
  }

  function InsertSorted(x: int, s: seq<int>): (r: seq<int>)
    ensures multiset(r) == multiset(s) + multiset{x}
  {
    if s == [] || s[|s| - 1] <= x then s + [x]
    else
      assert s == s[..|s| - 1] + [s[|s| - 1]];
      InsertSorted(x, s[..|s| - 1]) + [s[|s| - 1]]
  }

  lemma {:induction false} InsertKeepsOrder(x: int, s: seq<int>)
    requires Sorted(s)
    ensures Sorted(InsertSorted(x, s))
    ensures forall i :: 0 <= i < |InsertSorted(x, s)| ==>
              InsertSorted(x, s)[i] <= if s == [] then x else Max(s[|s| - 1], x)
    decreases |s|
  {
    if s != [] && s[|s| - 1] > x {
      InsertKeepsOrder(x, s[..|s| - 1]);
      var r := InsertSorted(x, s[..|s| - 1]);
      assert InsertSorted(x, s) == r + [s[|s| - 1]] && forall i :: 0 <= i < |r| ==> r[i] <= s[|s| - 1];
    }
  }

  function Sort(s: seq<int>): (r: seq<int>)
    ensures Sorted(r) && multiset(r) == multiset(s)
  {
    if s == [] then []
    else
      assert s == s[..|s| - 1] + [s[|s| - 1]];
      InsertKeepsOrder(s[|s| - 1], Sort(s[..|s| - 1]));
      InsertSorted(s[|s| - 1], Sort(s[..|s| - 1]))
  }

  lemma InsertLargest(x: int, s: seq<int>)
    requires Sorted(s) && (s == [] || s[|s| - 1] <= x)
    ensures InsertSorted(x, s) == s + [x]
  {
  }

  lemma SortSnoc(s: seq<int>, x: int)
    ensures Sort(s + [x]) == InsertSorted(x, Sort(s))
  {
    hide InsertSorted;
    assert (s + [x])[..|s + [x]| - 1] == s;
  }

  lemma {:induction false} SortOfSorted(s: seq<int>)
    requires Sorted(s)
    ensures Sort(s) == s
    decreases |s|
  {
    if s != [] {
      var init, x := s[..|s| - 1], s[|s| - 1];
      assert s == init + [x] && Sorted(init) && (init == [] || init[|init| - 1] <= x);
      hide Sort, InsertSorted, Sorted;
      SortOfSorted(init);
      SortSnoc(init, x);
      InsertLargest(x, init);
    }
  }

  /** `consumeRollingLimit`. */
  function Consume(timestamps: seq<int>, now: int, limit: nat, window: int): (v: Verdict)
    requires limit > 0
    ensures v.timestamps != []
  {
    var active := Sort(Recent(timestamps, now, window));
    assert multiset(active) == multiset(Recent(timestamps, now, window));
    SameSize(active, Recent(timestamps, now, window));
    if |active| >= limit then Verdict(false, active, 0, active[0] + window)
    else
      var next := active + [now];
      Verdict(true, next, Max(0, limit - |next|), next[0] + window)
  }

  /** A verdict lists the requests inside the window, sorted, and then the allowed one. */
  lemma ConsumeMeans(timestamps: seq<int>, now: int, limit: nat, window: int)
    requires limit > 0
    ensures var v := Consume(timestamps, now, limit, window);
            var recent := Recent(timestamps, now, window);
            && (v.allowed <==> |recent| < limit)
            && multiset(v.timestamps) == multiset(recent) + (if v.allowed then multiset{now} else multiset{})
            && |v.timestamps| == |recent| + (if v.allowed then 1 else 0) && v.timestamps != []
            && Sorted(if v.allowed then v.timestamps[..|v.timestamps| - 1] else v.timestamps)
            && (v.allowed ==> v.timestamps[|v.timestamps| - 1] == now)
  {
    hide Sort, Recent, Sorted;
    var active, recent := Sort(Recent(timestamps, now, window)), Recent(timestamps, now, window);
    SameSize(active, recent);
    assert (active + [now])[..|active|] == active;
  }

  lemma FirstIsLeast(active: seq<int>, recent: seq<int>)
    requires Sorted(active) && multiset(active) == multiset(recent) && active != []
    ensures active[0] in recent && forall t :: t in recent ==> active[0] <= t
  {
    assert active[0] in multiset(recent);
    forall t | t in recent ensures active[0] <= t {
      assert t in multiset(active);
    }
  }

  /**
    The reset time is one window after the oldest request inside the window, or after this one when it is the only one;
    what remains is the limit less the requests in the window, this one included.
   */
  lemma ResetMeans(timestamps: seq<int>, now: int, limit: nat, window: int)
    requires limit > 0
    ensures var v := Consume(timestamps, now, limit, window);
            var recent := Recent(timestamps, now, window);
            && (recent == [] ==> v.resetAt == now + window)
            && (recent != [] ==>
                 v.resetAt - window in recent && forall t :: t in recent ==> v.resetAt - window <= t)
            && v.remaining == if |recent| < limit then limit - |recent| - 1 else 0
  {
    hide Sort, Recent, Sorted;
    var active, recent := Sort(Recent(timestamps, now, window)), Recent(timestamps, now, window);
    SameSize(active, recent);
    if active != [] {
      FirstIsLeast(active, recent);
    }
  }

  lemma SameSize(a: seq<int>, b: seq<int>)
    requires multiset(a) == multiset(b)
    ensures |a| == |b|
  {
    assert |a| == |multiset(a)| == |multiset(b)| == |b|;
  }

  lemma RecentStep(ts: seq<int>, last: int, now: int, window: int)
    ensures Recent(ts + [last], now, window) == Recent(ts, now, window) + if last > now - window then [last] else []
  {
    assert (ts + [last])[..|ts + [last]| - 1] == ts;
  }

  /** On a sorted list the window is its tail. */
  lemma {:induction false} RecentIsTail(ts: seq<int>, now: int, window: int)
    requires Sorted(ts)
    ensures var r := Recent(ts, now, window);
            && |r| <= |ts| && r == ts[|ts| - |r|..]
            && (forall i :: 0 <= i < |ts| - |r| ==> ts[i] <= now - window)
            && (forall i :: |ts| - |r| <= i < |ts| ==> ts[i] > now - window)
    decreases |ts|
  {
    if ts != [] {
      var init, last := ts[..|ts| - 1], ts[|ts| - 1];
      assert Sorted(init) && ts == init + [last];
      RecentIsTail(init, now, window);
      RecentStep(init, last, now, window);
      hide Sorted, Recent;
      var r := Recent(init, now, window);
      if last > now - window {
        assert ts[|init| - |r|..] == init[|init| - |r|..] + [last];
      } else {
        OldBelow(ts, now - window);
        NoneRecent(init, now, window);
      }
    }
  }

  lemma {:induction false} NoneRecent(ts: seq<int>, now: int, window: int)
    requires forall i :: 0 <= i < |ts| ==> ts[i] <= now - window
    ensures Recent(ts, now, window) == []
  {
    if ts != [] {
      NoneRecent(ts[..|ts| - 1], now, window);
    }
  }

  lemma OldBelow(ts: seq<int>, bound: int)
    requires Sorted(ts) && ts != [] && ts[|ts| - 1] <= bound
    ensures forall i :: 0 <= i < |ts| ==> ts[i] <= bound
  {
  }
}
