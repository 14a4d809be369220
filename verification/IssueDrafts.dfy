/**
  The durable object behind issue submission: a rolling limit, drafts with timed claims, and an
  alarm that wipes everything. The class is the object; `Store` is its content as a value.
 */
module IssueDrafts {
  import opened Common
  import opened RollingLimit

  const ISSUE_DRAFT_TTL_MS := 30 * 60 * 1000
  const ISSUE_CLAIM_TTL_MS := 2 * 60 * 1000
  const ALARM_MARGIN_MS := 1000

  type DraftId = nat

  datatype Issue = Issue(number: int, url: string)
  datatype Status = Ready | Submitting | Submitted
  datatype Draft = Draft(expiresAt: int, status: Status, claimExpiresAt: Option<int>, issue: Option<Issue>)

  datatype Store = Store(rate: seq<int>, alarm: Option<int>, drafts: map<DraftId, Draft>)

  datatype Claimed = Missing | Completed(issue: Issue) | Expired | Busy | Granted(draft: Draft)

  /** Both parts are truthy in the sense of the source. */
  predicate Usable(i: Issue) { i.number != 0 && i.url != "" }

  predicate HasIssue(d: Draft) { d.status == Submitted && d.issue.Some? && Usable(d.issue.value) }

  // ---------------------------------------------------------------- the object's transactions

  function ConsumeLimit(st: Store, now: int): (Store, Verdict) {
    var v := Consume(st.rate, now, ISSUE_RATE_LIMIT, ISSUE_RATE_WINDOW_MS);
    var saved := if v.allowed then st.(rate := v.timestamps) else st;
    var last := v.timestamps[|v.timestamps| - 1];
    (if last != 0 then saved.(alarm := Some(last + ISSUE_RATE_WINDOW_MS + ALARM_MARGIN_MS)) else saved, v)
  }

  function CreateDraft(st: Store, id: DraftId, draft: Draft): Store {
    st.(drafts := st.drafts[id := draft])
  }

  function NewDraft(now: int): Draft {
    Draft(now + ISSUE_DRAFT_TTL_MS, Ready, None, None)
  }

  function ClaimUntil(d: Draft): int {
    if d.claimExpiresAt.Some? then d.claimExpiresAt.value else 0
  }

  function ClaimDraft(st: Store, id: DraftId, now: int): (Store, Claimed) {
    if id !in st.drafts then (st, Missing)
    else
      var d := st.drafts[id];
      if d.status == Submitted && d.issue.Some? && Usable(d.issue.value) then (st, Completed(d.issue.value))
      else if d.expiresAt <= now then (st.(drafts := st.drafts - {id}), Expired)
      else if d.status == Submitting && ClaimUntil(d) > now then (st, Busy)
      else
        var c := d.(status := Submitting, claimExpiresAt := Some(now + ISSUE_CLAIM_TTL_MS));
        (st.(drafts := st.drafts[id := c]), Granted(c))
  }

  function ReleaseDraft(st: Store, id: DraftId): Store {
    if id in st.drafts && st.drafts[id].status == Submitting
    then st.(drafts := st.drafts[id := st.drafts[id].(status := Ready, claimExpiresAt := None)])
    else st
  }

  function CompleteDraft(st: Store, id: DraftId, issue: Issue, now: int): Store {
    if Usable(issue) && id in st.drafts
    then st.(drafts := st.drafts[id := Draft(now + ISSUE_RATE_WINDOW_MS, Submitted, None, Some(issue))])
    else st
  }

  function Wiped(): Store { Store([], None, map[]) }

  /**
    `IssueSubmissionLimiter`. The contracts say what a caller can rely on; the assertions at the end of the
    bodies tie each method to the transaction that the runs below are made of.
   */
  class Limiter {
    var rate: seq<int>
    var alarm: Option<int>
    var drafts: map<DraftId, Draft>

    function Content(): Store
      reads this
    {
      Store(rate, alarm, drafts)
    }

    constructor ()
      ensures Content() == Wiped()
    {
      rate, alarm, drafts := [], None, map[];
    }

    /**
      The verdict holds the requests inside the window in order; an allowed request is saved with them, and the alarm
      follows the last one.
     */
    method LimitConsume(now: int) returns (v: Verdict)
      modifies this`rate, this`alarm
      ensures v.allowed <==> |Recent(old(rate), now, 3_600_000)| < 8
      ensures multiset(v.timestamps)
           == multiset(Recent(old(rate), now, 3_600_000)) + if v.allowed then multiset{now} else multiset{}
      ensures v.timestamps != [] && Sorted(if v.allowed then v.timestamps[..|v.timestamps| - 1] else v.timestamps)
      ensures v.allowed ==> v.timestamps[|v.timestamps| - 1] == now && |rate| <= ISSUE_RATE_LIMIT
      ensures rate == if v.allowed then v.timestamps else old(rate)
      ensures var last := v.timestamps[|v.timestamps| - 1];
              alarm == if last != 0 then Some(last + 3_601_000) else old(alarm)
    {
      hide Consume, Recent, Sorted;
      v := Consume(rate, now, ISSUE_RATE_LIMIT, ISSUE_RATE_WINDOW_MS);
      ConsumeMeans(rate, now, ISSUE_RATE_LIMIT, ISSUE_RATE_WINDOW_MS);
      if v.allowed {
        rate := v.timestamps;
      }
      var last := v.timestamps[|v.timestamps| - 1];
      if last != 0 {
        alarm := Some(last + ISSUE_RATE_WINDOW_MS + ALARM_MARGIN_MS);
      }
      assert (Content(), v) == ConsumeLimit(old(Content()), now);
    }

    method DraftCreate(id: DraftId, draft: Draft)
      modifies this`drafts
      ensures id in drafts && drafts[id] == draft && drafts - {id} == old(drafts) - {id}
    {
      drafts := drafts[id := draft];
      assert Content() == CreateDraft(old(Content()), id, draft);
    }

    /**
      Only a draft that is unexpired, has no issue and no unexpired claim is granted; only an expired one without an
      issue is dropped.
     */
    method DraftClaim(id: DraftId, now: int) returns (r: Claimed)
      modifies this`drafts
      ensures drafts - {id} == old(drafts) - {id}
      ensures r.Missing? <==> id !in old(drafts)
      ensures r.Completed? ==>
                old(drafts)[id].status == Submitted && old(drafts)[id].issue == Some(r.issue) && Usable(r.issue)
      ensures r.Granted? || r.Expired? || r.Busy? ==> id in old(drafts) && !HasIssue(old(drafts)[id])
      ensures r.Expired? ==> old(drafts)[id].expiresAt <= now && id !in drafts
      ensures r.Busy? ==>
                && now < old(drafts)[id].expiresAt
                && old(drafts)[id].status == Submitting && now < ClaimUntil(old(drafts)[id])
      ensures r.Granted? ==>
                && now < old(drafts)[id].expiresAt
                   && (old(drafts)[id].status == Submitting ==> ClaimUntil(old(drafts)[id]) <= now)
                && id in drafts && drafts[id] == r.draft && r.draft.status == Submitting
                   && r.draft.claimExpiresAt == Some(now + 120_000)
                && r.draft.expiresAt == old(drafts)[id].expiresAt && r.draft.issue == old(drafts)[id].issue
      ensures !r.Granted? && !r.Expired? ==> drafts == old(drafts)
    {
      if id !in drafts {
        assert (Content(), Missing) == ClaimDraft(old(Content()), id, now);
        return Missing;
      }
      var draft := drafts[id];
      if draft.status == Submitted && draft.issue.Some? && Usable(draft.issue.value) {
        assert (Content(), Completed(draft.issue.value)) == ClaimDraft(old(Content()), id, now);
        return Completed(draft.issue.value);
      }
      if draft.expiresAt <= now {
        drafts := drafts - {id};
        assert (Content(), Expired) == ClaimDraft(old(Content()), id, now);
        return Expired;
      }
      if draft.status == Submitting && ClaimUntil(draft) > now {
        assert (Content(), Busy) == ClaimDraft(old(Content()), id, now);
        return Busy;
      }
      draft := draft.(status := Submitting, claimExpiresAt := Some(now + ISSUE_CLAIM_TTL_MS));
      drafts := drafts[id := draft];
      r := Granted(draft);
      assert (Content(), r) == ClaimDraft(old(Content()), id, now);
    }

    /** Afterwards nobody holds the draft; a draft that nobody held, submitted ones included, is untouched. */
    method DraftRelease(id: DraftId)
      modifies this`drafts
      ensures drafts.Keys == old(drafts).Keys && drafts - {id} == old(drafts) - {id}
      ensures id in drafts ==>
                && drafts[id].status != Submitting
                && (old(drafts)[id].status == Submitting ==>
                      drafts[id].status == Ready && drafts[id].claimExpiresAt == None)
                && drafts[id].expiresAt == old(drafts)[id].expiresAt && drafts[id].issue == old(drafts)[id].issue
      ensures id in drafts && old(drafts)[id].status != Submitting ==> drafts[id] == old(drafts)[id]
    {
      if id in drafts && drafts[id].status == Submitting {
        drafts := drafts[id := drafts[id].(status := Ready, claimExpiresAt := None)];
      }
      assert Content() == ReleaseDraft(old(Content()), id);
    }

    /** A usable issue is recorded on a draft that is there, and on nothing else. */
    method DraftComplete(id: DraftId, issue: Issue, now: int) returns (ok: bool)
      modifies this`drafts
      ensures ok <==> issue.number != 0 && issue.url != ""
      ensures drafts.Keys == old(drafts).Keys && drafts - {id} == old(drafts) - {id}
      ensures ok && id in drafts ==>
              HasIssue(drafts[id]) && drafts[id].issue == Some(issue)
                  && drafts[id].expiresAt == now + 3_600_000 && drafts[id].claimExpiresAt == None
      ensures !ok ==> drafts == old(drafts)
    {
      ok := Usable(issue);
      if ok && id in drafts {
        drafts := drafts[id := Draft(now + ISSUE_RATE_WINDOW_MS, Submitted, None, Some(issue))];
      }
      assert Content() == CompleteDraft(old(Content()), id, issue, now);
    }

    method Alarm()
      modifies this
      ensures rate == [] && alarm == None && drafts == map[]
    {
      rate, alarm, drafts := [], None, map[];
      assert Content() == Wiped();
    }
  }

  // ---------------------------------------------------------------- how long a draft and a claim last

  /** A draft can be claimed for half an hour after it is saved; after that a claim drops it. */
  lemma FreshDraftLasts(st: Store, id: DraftId, saved: int, now: int)
    ensures var (t, r) := ClaimDraft(CreateDraft(st, id, NewDraft(saved)), id, now);
            if now < saved + 1_800_000 then r.Granted? else r.Expired? && t.drafts == st.drafts - {id}
  {
    assert st.drafts[id := NewDraft(saved)] - {id} == st.drafts - {id};
  }

  /**
    A granted claim holds the unexpired draft for two minutes, or until it is released: a claim before that finds
    it busy, a later one is granted.
   */
  lemma ClaimLasts(st: Store, id: DraftId, now: int, later: int)
    requires ClaimDraft(st, id, now).1.Granted? && later < st.drafts[id].expiresAt
    ensures var held := ClaimDraft(st, id, now).0;
            && ClaimDraft(held, id, later).1 == (if later < now + 120_000 then Busy
                 else Granted(st.drafts[id].(status := Submitting, claimExpiresAt := Some(later + 120_000))))
            && ClaimDraft(ReleaseDraft(held, id), id, later).1.Granted?
  {
  }

  // ---------------------------------------------------------------- runs

  /** A submit handler between its claim and its last call. `sent` is the time it put into the claim. */
  datatype Handler = Holding(id: DraftId, sent: int) | Opened(id: DraftId, sent: int, issue: Issue)

  datatype Sys = Sys(
    store: Store,
    clock: int,
    handlers: map<nat, Handler>,
    used: set<DraftId>,                  // ids that were ever given to a draft
    issues: map<DraftId, seq<Issue>>,    // public issues opened for a draft
    granted: seq<int>)                   // every request the limit ever allowed

  datatype Event =
    | RequestDraft(now: int)                                      // the limit is consumed
    | SaveDraft(now: int, id: DraftId, requested: int)            // the draft of a request is saved
    | Claim(now: int, sent: int, id: DraftId, h: nat)
    | OpenIssue(now: int, h: nat, issue: Issue)
    | Finish(now: int, h: nat, delivered: bool)                   // the complete call, delivered or lost
    | GiveUp(now: int, h: nat, delivered: bool)                   // no issue was opened; the release call
    | AlarmFires(now: int)

  function IssuesOf(s: Sys, id: DraftId): seq<Issue> {
    if id in s.issues then s.issues[id] else []
  }

  predicate Enabled(s: Sys, e: Event) {
    && s.clock <= e.now
    && match e
       case RequestDraft(_) => true
       case SaveDraft(now, id, requested) => id !in s.used && requested in s.granted && requested <= now
       case Claim(now, sent, id, h) => h !in s.handlers && sent <= now
       case OpenIssue(_, h, issue) => h in s.handlers && s.handlers[h].Holding? && Usable(issue)
       case Finish(_, h, _) => h in s.handlers && s.handlers[h].Opened?
       case GiveUp(_, h, _) => h in s.handlers && s.handlers[h].Holding?
       case AlarmFires(now) => s.store.alarm.Some? && s.store.alarm.value <= now
  }

  function Next(s: Sys, e: Event): Sys
    requires Enabled(s, e)
  {
    match e
    case RequestDraft(now) =>
      var (st, v) := ConsumeLimit(s.store, now);
      s.(store := st, clock := now, granted := if v.allowed then s.granted + [now] else s.granted)
    case SaveDraft(now, id, _) =>
      s.(store := CreateDraft(s.store, id, NewDraft(now)), clock := now, used := s.used + {id})
    case Claim(now, sent, id, h) =>
      var (st, r) := ClaimDraft(s.store, id, sent);
      s.(store := st, clock := now, handlers := if r.Granted? then s.handlers[h := Holding(id, sent)] else s.handlers)
    case OpenIssue(now, h, issue) =>
      var x := s.handlers[h];
      s.(clock := now, handlers := s.handlers[h := Opened(x.id, x.sent, issue)],
          issues := s.issues[x.id := IssuesOf(s, x.id) + [issue]])
    case Finish(now, h, delivered) =>
      var x := s.handlers[h];
      s.(store := if delivered then CompleteDraft(s.store, x.id, x.issue, now) else s.store,
         clock := now, handlers := s.handlers - {h})
    case GiveUp(now, h, delivered) =>
      s.(store := if delivered then ReleaseDraft(s.store, s.handlers[h].id) else s.store,
         clock := now, handlers := s.handlers - {h})
    case AlarmFires(now) =>
      s.(store := Wiped(), clock := now)
  }

  function Init(clock: int): Sys { Sys(Wiped(), clock, map[], {}, map[], []) }

  /** A run: every event is enabled where it happens. */
  predicate IsRun(s: Sys, es: seq<Event>)
    decreases |es|
  {
    es == [] || (Enabled(s, es[0]) && IsRun(Next(s, es[0]), es[1..]))
  }

  function After(s: Sys, es: seq<Event>): Sys
    requires IsRun(s, es)
    decreases |es|
  {
    if es == [] then s else After(Next(s, es[0]), es[1..])
  }

  /** The clock of a run stands at its last event, and the events of a run are in the order of their times. */
  lemma {:induction false} ClockIsLast(s: Sys, es: seq<Event>)
    requires IsRun(s, es)
    ensures After(s, es).clock == if es == [] then s.clock else es[|es| - 1].now
    ensures forall i :: 0 <= i < |es| ==> s.clock <= es[i].now
    ensures forall i, j :: 0 <= i < j < |es| ==> es[i].now <= es[j].now
    decreases |es|
  {
    hide ConsumeLimit, ClaimDraft, CompleteDraft, ReleaseDraft;
    if es != [] {
      ClockIsLast(Next(s, es[0]), es[1..]);
    }
  }
}
