/** Whole runs of issue submission: at most one issue per draft, and why both conditions for it are needed. */
module IssueRuns {
  import opened Common
  import opened RollingLimit
  import opened IssueDrafts

  // ---------------------------------------------------------------- one issue per draft

  predicate Live(s: Sys, h: nat, id: DraftId) { h in s.handlers && s.handlers[h].id == id }

  /** What holds for one draft id: at most one handler works on it, and the record tells whether an issue exists. */
  ghost predicate Single(s: Sys, id: DraftId) {
    && (forall h, k :: Live(s, h, id) && Live(s, k, id) ==> h == k)
    && (forall h :: Live(s, h, id) ==> Backed(s, h, id))
    && (id in s.store.drafts ==> id in s.used)
    && (id in s.store.drafts && s.store.drafts[id].status == Submitted ==>
          var i := s.store.drafts[id].issue; i.Some? && Usable(i.value) && IssuesOf(s, id) == [i.value])
    && (id in s.store.drafts && s.store.drafts[id].status != Submitted && (forall h :: !Live(s, h, id)) ==>
       IssuesOf(s, id) == [])
    && (id !in s.used ==> IssuesOf(s, id) == [])
    && |IssuesOf(s, id)| <= 1
  }

  /** A live handler owns the claim in the record, and has opened the issues there are. */
  predicate Backed(s: Sys, h: nat, id: DraftId)
    requires Live(s, h, id)
  {
    var x := s.handlers[h];
    && id in s.used
    && (id in s.store.drafts ==>
          s.store.drafts[id].status == Submitting
              && s.store.drafts[id].claimExpiresAt == Some(x.sent + ISSUE_CLAIM_TTL_MS))
    && IssuesOf(s, id) == (if x.Holding? then [] else [x.issue])
    && (x.Opened? ==> Usable(x.issue))
  }

  /** No handler that is still at work has outlived its claim. */
  predicate Timely(s: Sys, now: int) {
    forall h :: h in s.handlers ==> now < s.handlers[h].sent + ISSUE_CLAIM_TTL_MS
  }

  predicate Reliable(e: Event) { e.Finish? ==> e.delivered }

  /**
    While a handler works on a draft, a claim is granted if and only if the draft is unexpired and the handler has
    outlived its own claim.
   */
  lemma GrantedWhileLiveIff(s: Sys, h: nat, id: DraftId, sent: int)
    requires Single(s, id) && Live(s, h, id)
    ensures ClaimDraft(s.store, id, sent).1.Granted?
       <==> && id in s.store.drafts && sent < s.store.drafts[id].expiresAt
            && s.handlers[h].sent + ISSUE_CLAIM_TTL_MS <= sent
  {
    assert Backed(s, h, id);
  }

  lemma ClaimStep(s: Sys, e: Event, id: DraftId)
    requires e.Claim? && Enabled(s, e) && Single(s, id) && Timely(s, e.now)
    ensures Single(Next(s, e), id)
  {
    var t := Next(s, e);
    assert IssuesOf(t, id) == IssuesOf(s, id);
    forall h | Live(s, h, id) ensures !ClaimDraft(s.store, id, e.sent).1.Granted? {
      GrantedWhileLiveIff(s, h, id, e.sent);
    }
    if e.id == id && ClaimDraft(s.store, id, e.sent).1.Granted? {
      assert IssuesOf(s, id) == [];
      assert Live(t, e.h, id) && Backed(t, e.h, id);
      forall h | Live(t, h, id) ensures h == e.h {
        assert h == e.h || !Live(s, h, id);
      }
    } else {
      forall h | Live(t, h, id) ensures Live(s, h, id) && Backed(t, h, id) {
        assert Live(s, h, id) && Backed(s, h, id);
      }
      assert forall h :: Live(s, h, id) ==> Live(t, h, id);
    }
  }

  lemma HandlerStep(s: Sys, e: Event, id: DraftId)
    requires e.OpenIssue? || e.Finish? || e.GiveUp?
    requires Enabled(s, e) && Single(s, id) && Reliable(e)
    ensures Single(Next(s, e), id)
  {
    var t := Next(s, e);
    if s.handlers[e.h].id == id {
      assert Live(s, e.h, id) && Backed(s, e.h, id);
      forall h | Live(t, h, id) ensures h == e.h && e.OpenIssue? {
        assert Live(s, h, id);
      }
      if e.OpenIssue? {
        assert Live(t, e.h, id) && Backed(t, e.h, id);
      }
    } else {
      assert IssuesOf(t, id) == IssuesOf(s, id);
      forall h | Live(t, h, id) ensures Live(s, h, id) && Backed(t, h, id) {
        assert Live(s, h, id) && Backed(s, h, id);
      }
      assert forall h :: Live(s, h, id) ==> Live(t, h, id);
    }
  }

  lemma OtherStep(s: Sys, e: Event, id: DraftId)
    requires e.RequestDraft? || e.SaveDraft? || e.AlarmFires?
    requires Enabled(s, e) && Single(s, id)
    ensures Single(Next(s, e), id)
  {
    hide Consume;
    var t := Next(s, e);
    assert IssuesOf(t, id) == IssuesOf(s, id);
    forall h | Live(t, h, id) ensures Live(s, h, id) && Backed(t, h, id) {
      assert Live(s, h, id) && Backed(s, h, id);
    }
    assert forall h :: Live(s, h, id) ==> Live(t, h, id);
  }

  lemma SingleStep(s: Sys, e: Event, id: DraftId)
    requires Enabled(s, e) && Single(s, id) && Timely(s, e.now) && Reliable(e)
    ensures Single(Next(s, e), id)
  {
    hide Single, Timely, Next, Reliable;
    match e
    case Claim(_, _, _, _) => ClaimStep(s, e, id);
    case OpenIssue(_, _, _) => HandlerStep(s, e, id);
    case Finish(_, _, _) => HandlerStep(s, e, id);
    case GiveUp(_, _, _) => HandlerStep(s, e, id);
    case _ => OtherStep(s, e, id);
  }

  /** At every event no handler has outlived its claim, and every complete call arrives. */
  predicate WellTimed(s: Sys, es: seq<Event>)
    requires IsRun(s, es)
    decreases |es|
  {
    es == [] || (Timely(s, es[0].now) && Reliable(es[0]) && WellTimed(Next(s, es[0]), es[1..]))
  }

  lemma {:induction false} SingleAlways(s: Sys, es: seq<Event>, id: DraftId)
    requires IsRun(s, es) && WellTimed(s, es) && Single(s, id)
    ensures Single(After(s, es), id)
    decreases |es|
  {
    hide Single, Timely, Next, Reliable;
    if es != [] {
      SingleStep(s, es[0], id);
      SingleAlways(Next(s, es[0]), es[1..], id);
    }
  }

  /** In every well-timed run, every draft leads to at most one issue and has at most one live claim. */
  lemma OneIssuePerDraft(clock: int, es: seq<Event>, id: DraftId)
    requires IsRun(Init(clock), es) && WellTimed(Init(clock), es)
    ensures var s := After(Init(clock), es);
            |IssuesOf(s, id)| <= 1 && forall h, k :: Live(s, h, id) && Live(s, k, id) ==> h == k
  {
    SingleAlways(Init(clock), es, id);
  }

  predicate IsSubmitted(s: Sys, id: DraftId, issue: Issue) {
    id in s.store.drafts && s.store.drafts[id].status == Submitted && s.store.drafts[id].issue == Some(issue)
        && Usable(issue)
  }

  lemma NoneLiveOnceSubmitted(s: Sys, id: DraftId)
    requires Single(s, id) && id in s.store.drafts && s.store.drafts[id].status == Submitted
    ensures forall h :: !Live(s, h, id)
  {
  }

  lemma SubmittedStep(s: Sys, e: Event, id: DraftId, issue: Issue)
    requires Enabled(s, e) && Single(s, id) && IsSubmitted(s, id, issue) && !e.AlarmFires?
    ensures IsSubmitted(Next(s, e), id, issue)
    ensures e.Claim? && e.id == id ==> ClaimDraft(s.store, id, e.sent).1 == Completed(issue)
  {
    hide Consume;
    NoneLiveOnceSubmitted(s, id);
    assert e.Finish? || e.GiveUp? ==> !Live(s, e.h, id);
  }

  /** Once submitted, a draft answers every later claim with the same issue, until the alarm wipes the object. */
  lemma {:induction false} SubmittedSticks(s: Sys, es: seq<Event>, id: DraftId, issue: Issue)
    requires IsRun(s, es) && WellTimed(s, es) && Single(s, id) && IsSubmitted(s, id, issue)
    requires forall i :: 0 <= i < |es| ==> !es[i].AlarmFires?
    ensures IsSubmitted(After(s, es), id, issue)
    ensures forall sent :: ClaimDraft(After(s, es).store, id, sent).1 == Completed(issue)
    decreases |es|
  {
    hide Single, Timely, Next, Reliable;
    if es != [] {
      SingleStep(s, es[0], id);
      SubmittedStep(s, es[0], id, issue);
      SubmittedSticks(Next(s, es[0]), es[1..], id, issue);
    }
  }

  // ---------------------------------------------------------------- both conditions are needed

  /**
    After the complete call of a handler is lost, a later claim is granted if and only if the draft is
    unexpired and the lost handler's claim has run out; then a second issue can be opened at once.
   */
  lemma LostCompletionIff(s: Sys, h: nat, id: DraftId, lost: int, now: int, sent: int, k: nat, issue: Issue)
    requires Single(s, id) && Live(s, h, id) && s.handlers[h].Opened? && s.clock <= lost <= now && sent <= now
             && k !in s.handlers && Usable(issue)
    ensures var t := Next(s, Finish(lost, h, false));
            var u := Next(t, Claim(now, sent, id, k));
            && (k in u.handlers <==>
                  && id in s.store.drafts && sent < s.store.drafts[id].expiresAt
                  && s.handlers[h].sent + ISSUE_CLAIM_TTL_MS <= sent)
            && (k in u.handlers ==> |IssuesOf(Next(u, OpenIssue(now, k, issue)), id)| == 2)
  {
    assert Backed(s, h, id);
    GrantedWhileLiveIff(s, h, id, sent);
  }

  /**
    After a handler gives up without an issue, a later claim of the unexpired draft is granted if and only if the
    release call arrived or the claim has run out; no issue exists for the draft then.
   */
  lemma GivenUpIff(s: Sys, h: nat, id: DraftId, left: int, delivered: bool, now: int, sent: int, k: nat)
    requires Single(s, id) && Live(s, h, id) && s.handlers[h].Holding? && s.clock <= left <= now && sent <= now
             && k !in s.handlers
    ensures var t := Next(s, GiveUp(left, h, delivered));
            var u := Next(t, Claim(now, sent, id, k));
            && (k in u.handlers <==>
                  && id in s.store.drafts && sent < s.store.drafts[id].expiresAt
                  && (delivered || s.handlers[h].sent + 120_000 <= sent))
            && IssuesOf(u, id) == []
  {
    assert Backed(s, h, id);
    GrantedWhileLiveIff(s, h, id, sent);
  }

  const SAMPLE := Issue(1, "u")

  /** No handler outlives its claim before any event of the run. */
  predicate NeverOverrun(s: Sys, es: seq<Event>)
    requires IsRun(s, es)
    decreases |es|
  {
    es == [] || (Timely(s, es[0].now) && NeverOverrun(Next(s, es[0]), es[1..]))
  }

  lemma Unfold(s: Sys, e: Event, rest: seq<Event>)
    requires Enabled(s, e) && IsRun(Next(s, e), rest)
    ensures IsRun(s, [e] + rest) && After(s, [e] + rest) == After(Next(s, e), rest)
    ensures NeverOverrun(Next(s, e), rest) && Timely(s, e.now) ==> NeverOverrun(s, [e] + rest)
  {
    hide Next, Enabled, Timely, Reliable;
    assert ([e] + rest)[0] == e && ([e] + rest)[1..] == rest;
  }

  /** A saved draft, just after its request. */
  function Prepared(): Sys {
    Sys(Store([1], Some(1 + ISSUE_RATE_WINDOW_MS + ALARM_MARGIN_MS), map[0 := NewDraft(1)]), 1, map[], {0}, map[], [1])
  }

  lemma FirstRequestIsGranted()
    ensures Consume([], 1, ISSUE_RATE_LIMIT, ISSUE_RATE_WINDOW_MS).timestamps == [1]
    ensures Consume([], 1, ISSUE_RATE_LIMIT, ISSUE_RATE_WINDOW_MS).allowed
  {
    assert Recent([], 1, ISSUE_RATE_WINDOW_MS) == [] && Sort([]) == [];
  }

  lemma PreparedIsReachable()
    ensures IsRun(Init(1), [RequestDraft(1), SaveDraft(1, 0, 1)])
    ensures After(Init(1), [RequestDraft(1), SaveDraft(1, 0, 1)]) == Prepared()
  {
    hide Consume, ClaimDraft, ReleaseDraft;
    var s0 := Init(1);
    FirstRequestIsGranted();
    var s1 := Next(s0, RequestDraft(1));
    assert s1.granted == [1];
    assert Next(s1, SaveDraft(1, 0, 1)) == Prepared();
    Unfold(s1, SaveDraft(1, 0, 1), []);
    Unfold(s0, RequestDraft(1), [SaveDraft(1, 0, 1)]);
    assert [RequestDraft(1)] + [SaveDraft(1, 0, 1)] == [RequestDraft(1), SaveDraft(1, 0, 1)];
  }

  const LATE := 1 + ISSUE_CLAIM_TTL_MS

  /** A handler that outlives its claim lets a second handler open a second issue, though no call is lost. */
  lemma OverrunOpensTwo()
    ensures var es := [Claim(1, 1, 0, 0), Claim(LATE, LATE, 0, 1), OpenIssue(LATE, 0, SAMPLE),
            OpenIssue(LATE, 1, SAMPLE)];
            && IsRun(Prepared(), es) && |IssuesOf(After(Prepared(), es), 0)| == 2
            && forall i :: 0 <= i < |es| ==> Reliable(es[i])
  {
    hide Consume, ConsumeLimit, ReleaseDraft;
    var s1 := Next(Prepared(), Claim(1, 1, 0, 0));
    var s2 := Next(s1, Claim(LATE, LATE, 0, 1));
    var s3 := Next(s2, OpenIssue(LATE, 0, SAMPLE));
    var s4 := Next(s3, OpenIssue(LATE, 1, SAMPLE));
    Unfold(s3, OpenIssue(LATE, 1, SAMPLE), []);
    var e3 := [OpenIssue(LATE, 1, SAMPLE)];
    Unfold(s2, OpenIssue(LATE, 0, SAMPLE), e3);
    var e2 := [OpenIssue(LATE, 0, SAMPLE)] + e3;
    Unfold(s1, Claim(LATE, LATE, 0, 1), e2);
    var e1 := [Claim(LATE, LATE, 0, 1)] + e2;
    Unfold(Prepared(), Claim(1, 1, 0, 0), e1);
    assert [Claim(1, 1, 0, 0)] + e1
        == [Claim(1, 1, 0, 0), Claim(LATE, LATE, 0, 1), OpenIssue(LATE, 0, SAMPLE), OpenIssue(LATE, 1, SAMPLE)];
  }

  /** A lost complete call lets the draft be claimed again and a second issue be opened, though no handler overruns. */
  lemma LostCompletionOpensTwo()
    ensures var es := [Claim(1, 1, 0, 0), OpenIssue(1, 0, SAMPLE), Finish(1, 0, false), Claim(LATE, LATE, 0, 1),
            OpenIssue(LATE, 1, SAMPLE)];
            IsRun(Prepared(), es) && NeverOverrun(Prepared(), es) && |IssuesOf(After(Prepared(), es), 0)| == 2
  {
    hide Consume, ConsumeLimit, ReleaseDraft;
    var s1 := Next(Prepared(), Claim(1, 1, 0, 0));
    var s2 := Next(s1, OpenIssue(1, 0, SAMPLE));
    var s3 := Next(s2, Finish(1, 0, false));
    var s4 := Next(s3, Claim(LATE, LATE, 0, 1));
    Unfold(s4, OpenIssue(LATE, 1, SAMPLE), []);
    var e4 := [OpenIssue(LATE, 1, SAMPLE)];
    Unfold(s3, Claim(LATE, LATE, 0, 1), e4);
    var e3 := [Claim(LATE, LATE, 0, 1)] + e4;
    Unfold(s2, Finish(1, 0, false), e3);
    var e2 := [Finish(1, 0, false)] + e3;
    Unfold(s1, OpenIssue(1, 0, SAMPLE), e2);
    var e1 := [OpenIssue(1, 0, SAMPLE)] + e2;
    Unfold(Prepared(), Claim(1, 1, 0, 0), e1);
    assert [Claim(1, 1, 0, 0)] + e1
        == [Claim(1, 1, 0, 0), OpenIssue(1, 0, SAMPLE), Finish(1, 0, false), Claim(LATE, LATE, 0, 1),
            OpenIssue(LATE, 1, SAMPLE)];
  }
}
