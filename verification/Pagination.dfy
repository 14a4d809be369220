/** Listing the instances of a service page by page, from a server that may answer anything. */
module Pagination {
  import opened Common
  import opened InstanceKeys

  const PAGE_SIZE: nat := 100
  const DEFAULT_CLUSTER := "DEFAULT"

  /** An item of a response; missing fields are empty, zero or false. */
  datatype Raw = Raw(ip: string, port: int, cluster: string, ephemeral: bool)

  datatype Error = Failed(text: string) | NoProgress

  datatype Response = Missing | Broken(text: string) | Page(items: seq<Raw>, total: Option<nat>)

  type Server = nat -> Response

  predicate Valid(r: Raw) { r.ip != "" && 1 <= r.port <= 65535 }

  function ToInstance(r: Raw): Instance
    requires Valid(r)
  {
    Instance(r.ip, r.port, if r.cluster == "" then DEFAULT_CLUSTER else r.cluster, r.ephemeral)
  }

  /** `parseInstancePage`: invalid items are skipped. */
  function Parse(raws: seq<Raw>): (r: seq<Instance>)
    ensures |r| <= |raws|
  {
    if raws == [] then []
    else Parse(raws[..|raws| - 1]) + if Valid(raws[|raws| - 1]) then [ToInstance(raws[|raws| - 1])] else []
  }

  function Keys(xs: seq<Instance>): set<string> { set x | x in xs :: Key(x) }

  /** The instances of a page whose keys are new, appended in order. */
  function AddAll(acc: seq<Instance>, page: seq<Instance>): seq<Instance> {
    if page == [] then acc
    else
      var r := AddAll(acc, page[..|page| - 1]);
      if Key(page[|page| - 1]) in Keys(r) then r else r + [page[|page| - 1]]
  }

  function Items(server: Server, n: nat): seq<Instance> {
    if server(n).Page? then Parse(server(n).items) else []
  }

  /** What the first n pages give. */
  function Collected(server: Server, n: nat): seq<Instance> {
    if n == 0 then [] else AddAll(Collected(server, n - 1), Items(server, n))
  }

  /** How the loop ends at page n when it did not end before; None is going on. */
  function Outcome(server: Server, n: nat): Option<Result<seq<Instance>, Error>>
    requires n >= 1
  {
    match server(n)
    case Missing => Some(Ok(Collected(server, n - 1)))
    case Broken(text) => Some(Err(Failed(text)))
    case Page(_, total) =>
      var page, all := Items(server, n), Collected(server, n);
      if (if total.Some? then |all| >= total.value || page == [] else |page| < PAGE_SIZE) then Some(Ok(all))
      else if |all| == |Collected(server, n - 1)| then Some(Err(NoProgress))
      else None
  }

  // ---------------------------------------------------------------- the loop

  lemma KeysStep(xs: seq<Instance>, x: Instance)
    ensures Keys(xs + [x]) == Keys(xs) + {Key(x)}
  {
    hide Key;
    assert forall y :: y in xs + [x] <==> y in xs || y == x;
  }

  method AddPage(acc: seq<Instance>, known: set<string>, page: seq<Instance>)
    returns (instances: seq<Instance>, seen: set<string>, added: nat)
    requires known == Keys(acc)
    ensures instances == AddAll(acc, page) && seen == Keys(instances) && |instances| == |acc| + added
  {
    hide Key, Keys;
    instances, seen, added := acc, known, 0;
    for i := 0 to |page|
      invariant instances == AddAll(acc, page[..i]) && seen == Keys(instances) && |instances| == |acc| + added
    {
      assert page[..i + 1][..i] == page[..i];
      var key := Key(page[i]);
      if key !in seen {
        KeysStep(instances, page[i]);
        seen := seen + {key};
        instances := instances + [page[i]];
        added := added + 1;
      }
    }
    assert page[..|page|] == page;
  }

  lemma {:induction false} AddAllGrows(acc: seq<Instance>, page: seq<Instance>)
    ensures acc <= AddAll(acc, page)
    ensures Keys(AddAll(acc, page)) == Keys(acc) + Keys(page)
  {
    hide Key, Keys;
    if page == [] {
      EmptyKeys();
    } else {
      var init, x := page[..|page| - 1], page[|page| - 1];
      AddAllGrows(acc, init);
      KeysStep(AddAll(acc, init), x);
      KeysStep(init, x);
      assert page == init + [x];
    }
  }

  /**
    `listCatalogInstances`. The result is the outcome of the first page at which the loop ends; that there
    is such a page needs only that all keys the server can answer with come from a finite set.
   */
  method ListCatalog(server: Server, ghost universe: set<string>)
    returns (r: Result<seq<Instance>, Error>, ghost pages: nat)
    requires forall n :: n >= 1 ==> Keys(Items(server, n)) <= universe
    ensures pages >= 1 && Outcome(server, pages) == Some(r)
    ensures forall m :: 1 <= m < pages ==> Outcome(server, m).None?
  {
    hide Key, Keys, AddAll, Parse;
    var instances: seq<Instance> := [];
    var seen: set<string> := {};
    var pageNo := 1;
    assert Keys([]) == {} by { EmptyKeys(); }
    while true
      invariant pageNo >= 1 && instances == Collected(server, pageNo - 1) && seen == Keys(instances) <= universe
      invariant forall m :: 1 <= m < pageNo ==> Outcome(server, m).None?
      decreases |universe| - |seen|
    {
      pages := pageNo;
      var response := server(pageNo);
      if response.Missing? {
        return Ok(instances), pages;
      }
      if response.Broken? {
        return Err(Failed(response.text)), pages;
      }
      var page := Parse(response.items);
      assert page == Items(server, pageNo);
      AddAllGrows(instances, page);
      ghost var before := seen;
      var next, known, added := AddPage(instances, seen, page);
      AddedMeansNewKeys(instances, page);
      instances, seen := next, known;
      if response.total.Some? {
        if |instances| >= response.total.value || |page| == 0 {
          return Ok(instances), pages;
        }
      } else if |page| < PAGE_SIZE {
        return Ok(instances), pages;
      }
      if added == 0 {
        return Err(NoProgress), pages;
      }
      SmallerRest(before, seen, universe);
      pageNo := pageNo + 1;
    }
  }

  lemma EmptyKeys()
    ensures Keys([]) == {}
  {
  }

  lemma SmallerRest(a: set<string>, b: set<string>, u: set<string>)
    requires a < b <= u
    ensures |a| < |b| <= |u|
  {
    Larger(a, b);
    if b != u {
      Larger(b, u);
    }
  }

  lemma {:induction false} Larger(a: set<string>, b: set<string>)
    requires a < b
    ensures |a| < |b|
  {
    if a == {} {
      assert b != {};
    } else {
      var x :| x in a;
      Larger(a - {x}, b - {x});
    }
  }

  lemma {:induction false} AddedMeansNewKeys(acc: seq<Instance>, page: seq<Instance>)
    ensures |AddAll(acc, page)| > |acc| ==> Keys(acc) < Keys(AddAll(acc, page))
  {
    hide Key, Keys;
    AddAllGrows(acc, page);
    if page != [] {
      var init, x := page[..|page| - 1], page[|page| - 1];
      AddedMeansNewKeys(acc, init);
      AddAllGrows(acc, init);
      KeysStep(AddAll(acc, init), x);
    }
  }

  // ---------------------------------------------------------------- no duplicates

  predicate Distinct(xs: seq<Instance>) {
    forall i, j :: 0 <= i < j < |xs| ==> Key(xs[i]) != Key(xs[j])
  }

  /** Different instances whose addresses hold no NUL have different keys. */
  lemma DistinctInstances(xs: seq<Instance>)
    requires forall i :: 0 <= i < |xs| ==> '\0' !in xs[i].ip
    requires forall i, j :: 0 <= i < j < |xs| ==> xs[i] != xs[j]
    ensures Distinct(xs)
  {
    hide Key;
    forall i, j | 0 <= i < j < |xs| ensures Key(xs[i]) != Key(xs[j]) {
      if Key(xs[i]) == Key(xs[j]) {
        KeysDiffer(xs[i], xs[j]);
      }
    }
  }

  lemma {:induction false} AddAllDistinct(acc: seq<Instance>, page: seq<Instance>)
    requires Distinct(acc)
    ensures Distinct(AddAll(acc, page))
  {
    hide Key;
    if page != [] {
      AddAllDistinct(acc, page[..|page| - 1]);
    }
  }

  /** Whatever the server answers, what is returned holds no instance twice. */
  lemma {:induction false} NeverTwice(server: Server, n: nat)
    ensures Distinct(Collected(server, n))
  {
    hide Key, AddAll, Items, Distinct;
    if n > 0 {
      NeverTwice(server, n - 1);
      AddAllDistinct(Collected(server, n - 1), Items(server, n));
    } else {
      assert Distinct([]) by { NoneDistinct(); }
    }
  }

  lemma NoneDistinct()
    ensures Distinct([])
  {
  }

  // ---------------------------------------------------------------- a stable list

  /** How many raw items the first n pages hold. */
  function Upto(list: seq<Raw>, n: nat): (k: nat)
    ensures k <= |list|
  {
    Min(PAGE_SIZE * n, |list|)
  }

  /** A server that serves a fixed list in pages of 100, with or without a total. */
  function Serve(list: seq<Raw>, total: Option<nat>): Server {
    (n: nat) => if n == 0 then Missing else Page(list[Upto(list, n - 1)..Upto(list, n)], total)
  }

  lemma {:induction false} ParseJoins(a: seq<Raw>, b: seq<Raw>)
    ensures Parse(a + b) == Parse(a) + Parse(b)
    decreases |b|
  {
    if b == [] {
      assert a + b == a;
    } else {
      assert (a + b)[..|a + b| - 1] == a + b[..|b| - 1];
      ParseJoins(a, b[..|b| - 1]);
    }
  }

  lemma {:induction false} AddNew(acc: seq<Instance>, page: seq<Instance>)
    requires Distinct(acc + page)
    ensures AddAll(acc, page) == acc + page
    decreases |page|
  {
    hide Key;
    if page == [] {
      assert acc + page == acc;
    } else {
      var init, x := page[..|page| - 1], page[|page| - 1];
      assert acc + page == acc + init + [x];
      assert Distinct(acc + init) by { DistinctPrefix(acc + init, [x]); }
      AddNew(acc, init);
      NewKey(acc + init, x);
    }
  }

  lemma DistinctPrefix(a: seq<Instance>, b: seq<Instance>)
    requires Distinct(a + b)
    ensures Distinct(a)
  {
    hide Key;
    assert forall i :: 0 <= i < |a| ==> (a + b)[i] == a[i];
  }

  lemma NewKey(a: seq<Instance>, x: Instance)
    requires Distinct(a + [x])
    ensures Key(x) !in Keys(a)
  {
    hide Key;
    forall y | y in a ensures Key(y) != Key(x) {
      var i :| 0 <= i < |a| && a[i] == y;
      assert (a + [x])[i] == y && (a + [x])[|a|] == x;
    }
  }

  lemma ParseSplit(list: seq<Raw>, n: nat)
    requires n >= 1
    ensures Upto(list, n - 1) <= Upto(list, n)
    ensures Parse(list[..Upto(list, n)])
            == Parse(list[..Upto(list, n - 1)]) + Parse(list[Upto(list, n - 1)..Upto(list, n)])
    ensures Parse(list) == Parse(list[..Upto(list, n)]) + Parse(list[Upto(list, n)..])
  {
    hide Parse;
    var a, b := Upto(list, n - 1), Upto(list, n);
    assert list[..b] == list[..a] + list[a..b];
    ParseJoins(list[..a], list[a..b]);
    assert list == list[..b] + list[b..];
    ParseJoins(list[..b], list[b..]);
  }

  lemma {:induction false} CollectedIsPrefix(list: seq<Raw>, total: Option<nat>, n: nat)
    requires Distinct(Parse(list))
    ensures Collected(Serve(list, total), n) == Parse(list[..Upto(list, n)])
  {
    hide Parse, AddAll, Distinct;
    if n == 0 {
      assert list[..0] == [] && Parse([]) == [] by { NothingParsed(); }
    } else {
      CollectedIsPrefix(list, total, n - 1);
      ParseSplit(list, n);
      var a, b := Parse(list[..Upto(list, n - 1)]), Parse(list[Upto(list, n - 1)..Upto(list, n)]);
      DistinctPrefix(a + b, Parse(list[Upto(list, n)..]));
      AddNew(a, b);
    }
  }

  lemma NothingParsed()
    ensures Parse([]) == []
  {
  }

  /**
    The page at which the listing ends: it reaches the total or has no valid item; without a total, fewer valid items
    than a page.
   */
  predicate EndsAt(list: seq<Raw>, total: Option<nat>, n: nat)
    requires n >= 1
  {
    ParseSplit(list, n);
    var page := Parse(list[Upto(list, n - 1)..Upto(list, n)]);
    if total.Some? then |Parse(list[..Upto(list, n)])| >= total.value || page == [] else |page| < PAGE_SIZE
  }

  lemma OutcomeOfStable(list: seq<Raw>, total: Option<nat>, n: nat)
    requires Distinct(Parse(list)) && n >= 1
    ensures Outcome(Serve(list, total), n) == if EndsAt(list, total, n) then Some(Ok(Parse(list[..Upto(list, n)])))
            else None
  {
    hide Parse, Distinct, Collected;
    CollectedIsPrefix(list, total, n - 1);
    CollectedIsPrefix(list, total, n);
    ParseSplit(list, n);
  }

  /** The first page at which the listing of a stable list ends. */
  function FirstEnd(list: seq<Raw>, total: Option<nat>, n: nat): (r: nat)
    requires 1 <= n <= |list| / PAGE_SIZE + 2
    ensures n <= r && EndsAt(list, total, r)
    ensures forall m :: n <= m < r ==> !EndsAt(list, total, m)
    decreases |list| / PAGE_SIZE + 2 - n
  {
    StableListEnds(list, total);
    if EndsAt(list, total, n) then n else FirstEnd(list, total, n + 1)
  }

  lemma {:induction false} NothingValidIff(list: seq<Raw>)
    ensures Parse(list) == [] <==> forall i :: 0 <= i < |list| ==> !Valid(list[i])
  {
    if list != [] {
      NothingValidIff(list[..|list| - 1]);
    }
  }

  /** What the listing of a stable list returns: the valid items up to the end of the first page at which it ends. */
  lemma StableResult(list: seq<Raw>, total: Option<nat>, pages: nat, r: Result<seq<Instance>, Error>)
    requires Distinct(Parse(list)) && pages >= 1 && Outcome(Serve(list, total), pages) == Some(r)
    requires forall m :: 1 <= m < pages ==> Outcome(Serve(list, total), m).None?
    ensures pages == FirstEnd(list, total, 1) && r == Ok(Parse(list[..Upto(list, pages)]))
  {
    hide Parse, Distinct, Outcome, EndsAt;
    var end := FirstEnd(list, total, 1);
    OutcomeOfStable(list, total, pages);
    OutcomeOfStable(list, total, end);
  }

  /**
    Against a stable list of raw items the listing returns all valid instances if and only if no valid
    item of the list stands behind the first page with `EndsAt`. The arguments are those `ListCatalog` promises.
   */
  lemma ListedIff(list: seq<Raw>, total: Option<nat>, pages: nat, r: Result<seq<Instance>, Error>)
    requires Distinct(Parse(list)) && pages >= 1 && Outcome(Serve(list, total), pages) == Some(r)
    requires forall m :: 1 <= m < pages ==> Outcome(Serve(list, total), m).None?
    ensures r == Ok(Parse(list)) <==> forall i :: Upto(list, FirstEnd(list, total, 1)) <= i < |list| ==> !Valid(list[i])
  {
    hide Parse, Distinct, Outcome, EndsAt, FirstEnd;
    StableResult(list, total, pages, r);
    ParseSplit(list, pages);
    var k := Upto(list, pages);
    var found, rest := Parse(list[..k]), Parse(list[k..]);
    assert rest == [] ==> found + rest == found;
    assert |found + rest| == |found| + |rest|;
    NothingValidIff(list[k..]);
    assert forall i :: k <= i < |list| ==> list[i] == list[k..][i - k];
  }

  predicate AllValid(list: seq<Raw>) { forall i :: 0 <= i < |list| ==> Valid(list[i]) }

  lemma {:induction false} ParseAll(list: seq<Raw>)
    requires AllValid(list)
    ensures |Parse(list)| == |list|
  {
    if list != [] {
      ParseAll(list[..|list| - 1]);
    }
  }

  /** A stable list of distinct valid instances is returned exactly, with or without its total. */
  lemma StableListIsListed(list: seq<Raw>, total: Option<nat>, pages: nat, r: Result<seq<Instance>, Error>)
    requires AllValid(list) && Distinct(Parse(list)) && (total == None || total == Some(|list|))
    requires pages >= 1 && Outcome(Serve(list, total), pages) == Some(r)
    requires forall m :: 1 <= m < pages ==> Outcome(Serve(list, total), m).None?
    ensures r == Ok(Parse(list)) && |Parse(list)| == |list|
  {
    hide Parse, Distinct, Outcome, FirstEnd;
    StableResult(list, total, pages, r);
    var b := Upto(list, pages);
    ParseAll(list);
    ParseAll(list[..b]);
    ParseAll(list[Upto(list, pages - 1)..b]);
    assert EndsAt(list, total, pages);
    assert b == |list| && list[..b] == list;
  }

  /** Without a total, one invalid item on a full page hides every page behind it. */
  lemma InvalidItemHidesTheRest(list: seq<Raw>)
    requires Distinct(Parse(list)) && |list| > PAGE_SIZE && !AllValid(list[..PAGE_SIZE])
    ensures Outcome(Serve(list, None), 1) == Some(Ok(Parse(list[..PAGE_SIZE])))
  {
    hide Parse, Distinct, Outcome;
    OutcomeOfStable(list, None, 1);
    assert list[0..PAGE_SIZE] == list[..PAGE_SIZE];
    ParseLoses(list[..PAGE_SIZE]);
  }

  lemma {:induction false} ParseLoses(list: seq<Raw>)
    requires !AllValid(list)
    ensures |Parse(list)| < |list|
  {
    var init := list[..|list| - 1];
    if !AllValid(init) {
      ParseLoses(init);
    } else {
      assert forall i :: 0 <= i < |init| ==> init[i] == list[i];
    }
  }

  /** The listing of a stable list ends. */
  lemma StableListEnds(list: seq<Raw>, total: Option<nat>)
    ensures EndsAt(list, total, |list| / PAGE_SIZE + 2)
  {
    var n := |list| / PAGE_SIZE + 2;
    assert list[Upto(list, n - 1)..Upto(list, n)] == [];
  }
}
