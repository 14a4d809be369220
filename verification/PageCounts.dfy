/** What a listing returns, field by field, how many pages it asks for, and how servers that go wrong are answered. */
module PageCounts {
  import opened Common
  import opened InstanceKeys
  import opened Pagination

  // ---------------------------------------------------------------- items and instances

  /** An item is kept when it has an address and a port number. */
  predicate Kept(r: Raw) { r.ip != "" && 1 <= r.port <= 65535 }

  /** The instance an item stands for; an item without a cluster is in the default one. */
  predicate StandsFor(r: Raw, i: Instance) {
    && i.ip == r.ip && i.port == r.port && i.ephemeral == r.ephemeral
    && i.cluster == if r.cluster == "" then "DEFAULT" else r.cluster
  }

  /** The k-th instance of a page is the k-th kept item: `at` lists their positions. */
  predicate Listed(raws: seq<Raw>, xs: seq<Instance>, at: seq<nat>) {
    && |at| == |xs|
    && (forall k :: 0 <= k < |at| ==> at[k] < |raws| && Kept(raws[at[k]]) && StandsFor(raws[at[k]], xs[k]))
    && (forall k, l :: 0 <= k < l < |at| ==> at[k] < at[l])
    && (forall i :: 0 <= i < |raws| && Kept(raws[i]) ==> i in at)
  }

  lemma ListedMore(raws: seq<Raw>, xs: seq<Instance>, at: seq<nat>, r: Raw, x: Instance)
    requires Listed(raws, xs, at)
    ensures !Kept(r) ==> Listed(raws + [r], xs, at)
    ensures Kept(r) && StandsFor(r, x) ==> Listed(raws + [r], xs + [x], at + [|raws|])
  {
    hide Kept, StandsFor;
    var more := raws + [r];
    assert forall i :: 0 <= i < |raws| ==> more[i] == raws[i];
    assert forall i :: i in at ==> i in at + [|raws|];
  }

  /** Parsing a page gives exactly its kept items, in order, field by field. */
  lemma {:induction false} ParseLists(raws: seq<Raw>) returns (at: seq<nat>)
    ensures Listed(raws, Parse(raws), at)
  {
    if raws == [] {
      at := [];
    } else {
      hide Listed;
      var init, r := raws[..|raws| - 1], raws[|raws| - 1];
      assert raws == init + [r];
      at := ParseLists(init);
      if Valid(r) {
        ListedMore(init, Parse(init), at, r, ToInstance(r));
        at := at + [|init|];
      } else {
        ListedMore(init, Parse(init), at, r, Instance("", 0, "", false));
        assert Parse(init) + [] == Parse(init);
      }
    }
  }

  lemma {:induction false} ParseOfKept(raws: seq<Raw>)
    requires forall i :: 0 <= i < |raws| ==> Kept(raws[i])
    ensures AllValid(raws) && |Parse(raws)| == |raws|
    ensures forall i :: 0 <= i < |raws| ==> StandsFor(raws[i], Parse(raws)[i])
  {
    if raws != [] {
      ParseOfKept(raws[..|raws| - 1]);
    }
  }

  // ---------------------------------------------------------------- whatever the server answers

  /** Nothing a page held is missing from what is collected, and what is collected came from a page. */
  lemma {:induction false} NothingMissed(server: Server, n: nat)
    ensures forall m :: 1 <= m <= n ==> Keys(Items(server, m)) <= Keys(Collected(server, n))
    ensures forall x :: x in Collected(server, n) ==> exists m :: 1 <= m <= n && x in Items(server, m)
  {
    hide Keys, Items, AddAll;
    if n > 0 {
      NothingMissed(server, n - 1);
      var before, page := Collected(server, n - 1), Items(server, n);
      AddAllGrows(before, page);
      forall x | x in AddAll(before, page) ensures exists m :: 1 <= m <= n && x in Items(server, m) {
        AddedFrom(before, page, x);
        if x in before {
          var m :| 1 <= m <= n - 1 && x in Items(server, m);
        }
      }
    }
  }

  lemma {:induction false} AddedFrom(acc: seq<Instance>, page: seq<Instance>, x: Instance)
    requires x in AddAll(acc, page)
    ensures x in acc || x in page
  {
    if page != [] {
      hide Keys;
      var init := page[..|page| - 1];
      if x in AddAll(acc, init) {
        AddedFrom(acc, init, x);
      }
    }
  }

  // ---------------------------------------------------------------- pages asked for

  /** The number of full or partial pages. */
  function PagesOf(n: nat): nat { (n + 99) / 100 }

  lemma PrefixKept(list: seq<Raw>, i: nat, j: nat)
    requires i <= j <= |list| && forall k :: 0 <= k < |list| ==> Kept(list[k])
    ensures |Parse(list[i..j])| == j - i
  {
    ParseOfKept(list[i..j]);
  }

  lemma EndsIff(list: seq<Raw>, total: Option<nat>, n: nat)
    requires n >= 1 && forall i :: 0 <= i < |list| ==> Kept(list[i])
    ensures EndsAt(list, total, n)
       <==> if total.Some? then Min(100 * n, |list|) >= total.value || 100 * (n - 1) >= |list| else 100 * n > |list|
  {
    hide Parse;
    PrefixKept(list, Upto(list, n - 1), Upto(list, n));
    PrefixKept(list, 0, Upto(list, n));
    assert list[0..Upto(list, n)] == list[..Upto(list, n)];
  }

  /** The page at which the listing of a list of kept items ends. */
  function LastPage(n: nat, total: Option<nat>): nat {
    if total.None? then n / 100 + 1
    else if total.value <= n then Max(1, PagesOf(total.value))
    else PagesOf(n) + 1
  }

  lemma LastPageEnds(n: nat, total: Option<nat>, m: nat)
    requires m >= 1
    ensures (if total.Some? then Min(100 * m, n) >= total.value || 100 * (m - 1) >= n else 100 * m > n)
       <==> m >= LastPage(n, total)
  {
  }

  /**
    A stable list of items with distinct keys: without a total it is returned in full after one page beyond its full
    pages; a total that is right or too large gives the full list too, and one that is too small stops the listing at
    the page that reaches it.
   */
  lemma StableListPages(list: seq<Raw>, total: Option<nat>, pages: nat, r: Result<seq<Instance>, Error>)
    requires (forall i :: 0 <= i < |list| ==> Kept(list[i])) && Distinct(Parse(list))
    requires pages >= 1 && Outcome(Serve(list, total), pages) == Some(r)
    requires forall m :: 1 <= m < pages ==> Outcome(Serve(list, total), m).None?
    ensures pages == LastPage(|list|, total) && r.Ok? && |r.value| == Min(100 * pages, |list|)
    ensures forall i :: 0 <= i < |r.value| ==> StandsFor(list[i], r.value[i])
    ensures total.None? || total.value >= |list| ==> |r.value| == |list|
  {
    hide Parse, Distinct, Outcome, EndsAt, FirstEnd;
    StableResult(list, total, pages, r);
    var last := LastPage(|list|, total);
    EndsIff(list, total, pages);
    LastPageEnds(|list|, total, pages);
    EndsIff(list, total, last);
    LastPageEnds(|list|, total, last);
    ParseOfKept(list[..Upto(list, pages)]);
  }

  // ---------------------------------------------------------------- servers that go wrong

  lemma OutcomeOfPage(server: Server, n: nat, items: seq<Raw>)
    requires n >= 1 && server(n) == Page(items, None) && |Parse(items)| >= 100
    ensures Outcome(server, n)
         == if |Collected(server, n)| == |Collected(server, n - 1)| then Some(Err(NoProgress)) else None
  {
    hide Parse, Collected;
  }

  /** A server that always answers with the same full page is refused at the second one. */
  lemma {:induction false} RepeatedPageIsRefused(page: seq<Raw>)
    requires |page| >= 100 && (forall i :: 0 <= i < |page| ==> Kept(page[i])) && Distinct(Parse(page))
    ensures var server := (n: nat) => Page(page, None);
            Outcome(server, 1) == None && Outcome(server, 2) == Some(Err(NoProgress))
  {
    hide Parse, Collected, Distinct, Outcome, Kept;
    var server := (n: nat) => Page(page, None);
    ParseOfKept(page);
    TwiceTheSame(server, Parse(page));
    OutcomeOfPage(server, 1, page);
    OutcomeOfPage(server, 2, page);
  }

  lemma TwiceTheSame(server: Server, xs: seq<Instance>)
    requires Items(server, 1) == Items(server, 2) == xs && Distinct(xs)
    ensures Collected(server, 0) == [] && Collected(server, 1) == Collected(server, 2) == xs
  {
    hide Items, AddAll, Distinct;
    assert [] + xs == xs;
    AddNew([], xs);
    AddNone(xs, xs);
    assert Collected(server, 1) == AddAll(Collected(server, 0), xs);
    assert Collected(server, 2) == AddAll(Collected(server, 1), xs);
  }

  lemma {:induction false} AddNone(acc: seq<Instance>, page: seq<Instance>)
    requires forall x :: x in page ==> x in acc
    ensures AddAll(acc, page) == acc
    decreases |page|
  {
    hide Key;
    if page != [] {
      AddNone(acc, page[..|page| - 1]);
      assert page[|page| - 1] in acc;
    }
  }

  /** A server that serves full pages of a list and then answers otherwise. */
  function ServeThen(list: seq<Raw>, k: nat, last: Response): Server {
    (n: nat) => if n <= k then Serve(list, None)(n) else last
  }

  lemma {:induction false} SameCollected(a: Server, b: Server, n: nat)
    requires forall m :: 0 <= m <= n ==> a(m) == b(m)
    ensures Collected(a, n) == Collected(b, n)
  {
    hide AddAll, Parse;
    if n > 0 {
      SameCollected(a, b, n - 1);
    }
  }

  lemma SameOutcome(a: Server, b: Server, n: nat)
    requires n >= 1 && forall m :: 0 <= m <= n ==> a(m) == b(m)
    ensures Outcome(a, n) == Outcome(b, n)
  {
    hide Collected, Parse;
    SameCollected(a, b, n);
    SameCollected(a, b, n - 1);
  }

  lemma FullPagesGoOn(list: seq<Raw>, k: nat, last: Response, m: nat)
    requires (forall i :: 0 <= i < |list| ==> Kept(list[i])) && Distinct(Parse(list)) && |list| == 100 * k
    requires 1 <= m <= k
    ensures Outcome(ServeThen(list, k, last), m).None?
  {
    hide Parse, Distinct, Outcome, EndsAt, Kept, Serve;
    SameOutcome(ServeThen(list, k, last), Serve(list, None), m);
    OutcomeOfStable(list, None, m);
    EndsIff(list, None, m);
  }

  /** A service that is gone after some full pages: what was collected counts. A failure: its text, and nothing else. */
  lemma LaterAnswers(list: seq<Raw>, k: nat, text: string)
    requires (forall i :: 0 <= i < |list| ==> Kept(list[i])) && Distinct(Parse(list)) && |list| == 100 * k
    ensures Outcome(ServeThen(list, k, Missing), k + 1) == Some(Ok(Parse(list)))
    ensures Outcome(ServeThen(list, k, Broken(text)), k + 1) == Some(Err(Failed(text)))
    ensures forall m :: 1 <= m <= k ==> Outcome(ServeThen(list, k, Missing), m).None?
    ensures forall m :: 1 <= m <= k ==> Outcome(ServeThen(list, k, Broken(text)), m).None?
  {
    hide Parse, Distinct, Collected, Kept;
    var server, stable := ServeThen(list, k, Missing), Serve(list, None);
    SameCollected(server, stable, k);
    CollectedIsPrefix(list, None, k);
    assert list[..Upto(list, k)] == list;
    assert Outcome(server, k + 1) == Some(Ok(Collected(server, k)));
    assert Outcome(ServeThen(list, k, Broken(text)), k + 1) == Some(Err(Failed(text)));
    hide Outcome;
    forall m | 1 <= m <= k
      ensures Outcome(server, m).None? && Outcome(ServeThen(list, k, Broken(text)), m).None?
    {
      FullPagesGoOn(list, k, Missing, m);
      FullPagesGoOn(list, k, Broken(text), m);
    }
  }
}
