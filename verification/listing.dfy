/**
 * `GET /` -- the public catalogue. The route keeps the published, listed
 * packs, optionally those whose name, key or description match a search
 * pattern, orders them by one of three sort keys and returns one page of
 * twelve, each pack without its stickers.
 *
 * The storage engine's query execution is not modelled; what it promises
 * is. The store is a map, so the order in which the engine scans it is a
 * parameter (`order`, a sequence of keys); a pattern match is an abstract
 * predicate (`matches`), since JavaScript regular expressions are not
 * modelled.
 */
module Listing {
  import opened Wrappers
  import opened Text
  import opened Numbers
  import opened Schema
  import opened Api

  const PacksPerPage: nat := 12

  /* -------------------------------------------------------------------- */
  /* Query parameters                                                     */
  /* -------------------------------------------------------------------- */

  /** The number of packs to skip for the `page` query parameter: pages
      count from 1, and a page that does not parse, or parses to 0, is the
      first page. A negative page is not guarded against. */
  function SkipFor(page: Option<string>): (skip: int)
    ensures skip % PacksPerPage == 0
    ensures page.None? || ParseInt(page.value).None? ==> skip == 0
    ensures skip < 0 <==> page.Some? && ParseInt(page.value).Some? && ParseInt(page.value).value < 0
  {
    var n := if page.Some? then ParseInt(page.value) else None;
    if n.Some? && n.value != 0 then (n.value - 1) * PacksPerPage else 0
  }

  /** Page `n`, written in decimal, starts after the first `n - 1` pages;
      pages "0" and "1" are the same page. */
  lemma PageSkip(n: nat)
    ensures SkipFor(Some(Decimal(n))) == if n == 0 then 0 else (n - 1) * PacksPerPage
    ensures SkipFor(Some("-" + Decimal(n))) == if n == 0 then 0 else -(n + 1) * PacksPerPage
  {
    ParseIntOfDecimal(n, "");
    assert Decimal(n) + "" == Decimal(n);
    assert "-" + Decimal(n) + "" == "-" + Decimal(n);
  }

  /** The three orders the route offers. */
  datatype SortMode = SubscribersDesc | CreatedAtAsc | CreatedAtDesc

  /** `?sort=popular` and `?sort=oldest` select their orders; anything
      else, including no parameter, is newest first. */
  function SortFor(sort: Option<string>): (m: SortMode)
    ensures m == SubscribersDesc <==> sort == Some("popular")
    ensures m == CreatedAtAsc <==> sort == Some("oldest")
  {
    if sort == Some("popular") then SubscribersDesc
    else if sort == Some("oldest") then CreatedAtAsc
    else CreatedAtDesc
  }

  /** The value a pack is ordered by, ascending. */
  function SortKey(m: SortMode, p: PackInfo): int {
    match m
    case SubscribersDesc => -(p.subscribers as int)
    case CreatedAtAsc => p.createdAt
    case CreatedAtDesc => -(p.createdAt as int)
  }

  predicate SortedBy(m: SortMode, xs: seq<PackInfo>) {
    forall i, j :: 0 <= i < j < |xs| ==> SortKey(m, xs[i]) <= SortKey(m, xs[j])
  }

  /* -------------------------------------------------------------------- */
  /* Filter                                                               */
  /* -------------------------------------------------------------------- */

  /** `matches(pattern, field)` stands for `new RegExp(pattern, 'i')`
      finding a match in `field`. */
  type Matcher = (string, string) -> bool

  /** The route's query: published and listed, and, when a search is given,
      the trimmed search matches the name, the key or the description. */
  predicate Eligible(p: PackInfo, search: Option<string>, matches: Matcher) {
    && p.published && p.listed
    && (Present(search) ==>
          var s := Trim(search.value);
          matches(s, p.name) || matches(s, p.key) || matches(s, p.description))
  }

  /** No key is listed twice. */
  predicate NoRepeats(order: seq<string>) {
    forall i, j :: 0 <= i < j < |order| ==> order[i] != order[j]
  }

  /** An order in which the storage engine may scan the collection: every
      key of the store, each once. */
  ghost predicate ScanOrder(store: Store, order: seq<string>) {
    (forall k :: k in order <==> k in store) && NoRepeats(order)
  }

  /** The eligible packs, stickers removed, in scan order. */
  function Candidates(store: Store, order: seq<string>, search: Option<string>, matches: Matcher)
    : (r: seq<PackInfo>)
    ensures |r| <= |order|
    ensures forall x :: x in r ==>
      Eligible(x, search, matches) && exists k :: k in order && k in store && x == InfoOf(store[k])
    ensures forall k :: k in order && k in store && Eligible(InfoOf(store[k]), search, matches) ==>
      InfoOf(store[k]) in r
    decreases |order|
  {
    if |order| == 0 then []
    else
      var tail := order[1..];
      var rest := Candidates(store, tail, search, matches);
      assert order == [order[0]] + tail;
      assert forall k :: k in order ==> k == order[0] || k in tail;
      if order[0] in store && Eligible(InfoOf(store[order[0]]), search, matches) then
        [InfoOf(store[order[0]])] + rest
      else rest
  }

  /* -------------------------------------------------------------------- */
  /* Sort                                                                 */
  /* -------------------------------------------------------------------- */

  /** A pack ordered no later than every pack of a sorted sequence can go
      in front of it. */
  lemma PrependSorted(m: SortMode, x: PackInfo, ys: seq<PackInfo>)
    requires SortedBy(m, ys)
    requires forall i :: 0 <= i < |ys| ==> SortKey(m, x) <= SortKey(m, ys[i])
    ensures SortedBy(m, [x] + ys)
  {
    var zs := [x] + ys;
    forall i, j | 0 <= i < j < |zs|
      ensures SortKey(m, zs[i]) <= SortKey(m, zs[j])
    {
      assert zs[j] == ys[j - 1];
      if i > 0 {
        assert zs[i] == ys[i - 1];
      }
    }
  }

  /** The head of a sorted sequence is ordered no later than anything
      inserted after it. */
  lemma HeadBeforeInserted(m: SortMode, h: PackInfo, p: PackInfo, tail: seq<PackInfo>, rest: seq<PackInfo>)
    requires SortedBy(m, [h] + tail)
    requires SortKey(m, h) < SortKey(m, p)
    requires forall i :: 0 <= i < |rest| ==> rest[i] == p || rest[i] in tail
    ensures forall i :: 0 <= i < |rest| ==> SortKey(m, h) <= SortKey(m, rest[i])
  {
    forall i | 0 <= i < |rest|
      ensures SortKey(m, h) <= SortKey(m, rest[i])
    {
      if rest[i] != p {
        var zs := [h] + tail;
        var j :| 0 <= j < |tail| && tail[j] == rest[i];
        assert zs[0] == h && zs[j + 1] == tail[j];
      }
    }
  }

  function Insert(m: SortMode, p: PackInfo, xs: seq<PackInfo>): (r: seq<PackInfo>)
    requires SortedBy(m, xs)
    ensures SortedBy(m, r)
    ensures multiset(r) == multiset(xs) + multiset{p}
    ensures forall i :: 0 <= i < |r| ==> r[i] == p || r[i] in xs
    decreases |xs|
  {
    if |xs| == 0 || SortKey(m, p) <= SortKey(m, xs[0]) then
      PrependSorted(m, p, xs);
      [p] + xs
    else
      var tail := xs[1..];
      var rest := Insert(m, p, tail);
      assert xs == [xs[0]] + tail;
      HeadBeforeInserted(m, xs[0], p, tail, rest);
      PrependSorted(m, xs[0], rest);
      [xs[0]] + rest
  }

  /** The candidates in the chosen order. Packs with equal sort keys keep
      their scan order, one of the orders the storage engine may return. */
  function SortPacks(m: SortMode, xs: seq<PackInfo>): (r: seq<PackInfo>)
    ensures SortedBy(m, r)
    ensures multiset(r) == multiset(xs)
    decreases |xs|
  {
    if |xs| == 0 then []
    else
      assert xs == [xs[0]] + xs[1..];
      Insert(m, xs[0], SortPacks(m, xs[1..]))
  }

  /** Every eligible pack in the chosen order: what the query selects
      before `skip` and `limit`. */
  function Catalogue(store: Store, order: seq<string>, sort: Option<string>,
                     search: Option<string>, matches: Matcher): seq<PackInfo>
  {
    SortPacks(SortFor(sort), Candidates(store, order, search, matches))
  }

  /** Every pack in the catalogue is an eligible pack of the store. */
  lemma CatalogueMembers(store: Store, order: seq<string>, sort: Option<string>,
                         search: Option<string>, matches: Matcher)
    ensures forall x :: x in Catalogue(store, order, sort, search, matches) ==>
      Eligible(x, search, matches) && exists k :: k in order && k in store && x == InfoOf(store[k])
  {
    var cs := Candidates(store, order, search, matches);
    var all := Catalogue(store, order, sort, search, matches);
    forall x | x in all
      ensures x in cs
    {
      assert x in multiset(all);
    }
  }

  /** Every eligible pack of the store is in the catalogue. */
  lemma CatalogueComplete(store: Store, order: seq<string>, sort: Option<string>,
                          search: Option<string>, matches: Matcher, k: string)
    requires ScanOrder(store, order)
    requires k in store && Eligible(InfoOf(store[k]), search, matches)
    ensures InfoOf(store[k]) in Catalogue(store, order, sort, search, matches)
  {
    var cs := Candidates(store, order, search, matches);
    assert InfoOf(store[k]) in multiset(cs);
  }

  /** The keys in `order` whose pack is eligible and, stickers removed, is
      `x`. */
  function KeysShowing(store: Store, order: seq<string>, search: Option<string>, matches: Matcher,
                       x: PackInfo): set<string>
  {
    set k | k in order && k in store && Eligible(InfoOf(store[k]), search, matches) && InfoOf(store[k]) == x
  }

  /** The keys of the store whose pack is eligible and, stickers removed,
      is `x`. */
  function EligibleShowing(store: Store, search: Option<string>, matches: Matcher, x: PackInfo): set<string>
  {
    set k | k in store && Eligible(InfoOf(store[k]), search, matches) && InfoOf(store[k]) == x
  }

  lemma NoRepeatsTail(order: seq<string>)
    requires |order| > 0 && NoRepeats(order)
    ensures NoRepeats(order[1..]) && order[0] !in order[1..]
  {
    var tail := order[1..];
    forall i | 0 <= i < |tail|
      ensures tail[i] != order[0]
    {
      assert tail[i] == order[i + 1];
    }
    forall i, j | 0 <= i < j < |tail|
      ensures tail[i] != tail[j]
    {
      assert tail[i] == order[i + 1] && tail[j] == order[j + 1];
    }
  }

  /** The keys showing `x` in a scan are the head's, when it shows `x`,
      and those of the rest. */
  lemma KeysShowingStep(store: Store, order: seq<string>, search: Option<string>, matches: Matcher,
                        x: PackInfo)
    requires |order| > 0
    ensures var h := order[0];
      KeysShowing(store, order, search, matches, x) ==
        if h in store && Eligible(InfoOf(store[h]), search, matches) && InfoOf(store[h]) == x
        then KeysShowing(store, order[1..], search, matches, x) + {h}
        else KeysShowing(store, order[1..], search, matches, x)
  {
    assert order == [order[0]] + order[1..];
    assert forall k :: k in order <==> k == order[0] || k in order[1..];
  }

  /** Scanning distinct keys yields each pack once per key that holds it. */
  lemma {:induction false} CandidatesCount(store: Store, order: seq<string>, search: Option<string>,
                                           matches: Matcher, x: PackInfo)
    requires NoRepeats(order)
    ensures multiset(Candidates(store, order, search, matches))[x]
      == |KeysShowing(store, order, search, matches, x)|
    decreases |order|
  {
    if |order| > 0 {
      var h, tail := order[0], order[1..];
      NoRepeatsTail(order);
      CandidatesCount(store, tail, search, matches, x);
      KeysShowingStep(store, order, search, matches, x);
      assert h !in KeysShowing(store, tail, search, matches, x);
    }
  }

  /** The catalogue is a permutation of the store's eligible packs: each
      pack appears once for every key that holds it. */
  lemma CatalogueIsPermutation(store: Store, order: seq<string>, sort: Option<string>,
                               search: Option<string>, matches: Matcher, x: PackInfo)
    requires ScanOrder(store, order)
    ensures multiset(Catalogue(store, order, sort, search, matches))[x]
      == |EligibleShowing(store, search, matches, x)|
  {
    CandidatesCount(store, order, search, matches, x);
    assert KeysShowing(store, order, search, matches, x) == EligibleShowing(store, search, matches, x);
  }

  /** On a store whose packs sit under their own keys, the catalogue holds
      every eligible pack exactly once and nothing else. */
  lemma CatalogueShowsEachOnce(store: Store, order: seq<string>, sort: Option<string>,
                               search: Option<string>, matches: Matcher, x: PackInfo)
    requires ScanOrder(store, order)
    requires forall k :: k in store ==> store[k].key == k
    ensures multiset(Catalogue(store, order, sort, search, matches))[x]
      == if x.key in store && InfoOf(store[x.key]) == x && Eligible(x, search, matches) then 1 else 0
  {
    CatalogueIsPermutation(store, order, sort, search, matches, x);
    var ks := EligibleShowing(store, search, matches, x);
    assert forall k :: k in ks ==> k == x.key by {
      forall k | k in ks ensures k == x.key {
        assert InfoOf(store[k]).key == store[k].key == k;
      }
    }
    if x.key in store && InfoOf(store[x.key]) == x && Eligible(x, search, matches) {
      assert x.key in ks;
      assert ks == {x.key};
    } else {
      assert ks == {};
    }
  }

  /* -------------------------------------------------------------------- */
  /* Pages                                                                */
  /* -------------------------------------------------------------------- */

  /** `.skip(skip).limit(12)`: at most twelve packs, taken in order from
      position `skip`; the page is short only when it reaches the end. */
  function Window(xs: seq<PackInfo>, skip: nat): (r: seq<PackInfo>)
    ensures |r| <= PacksPerPage
    ensures forall i :: 0 <= i < |r| ==> skip + i < |xs| && r[i] == xs[skip + i]
    ensures |r| == PacksPerPage || skip + |r| >= |xs|
  {
    if skip >= |xs| then []
    else if skip + PacksPerPage <= |xs| then xs[skip..skip + PacksPerPage]
    else xs[skip..]
  }

  /** The first `n` pages one after another. */
  function Pages(xs: seq<PackInfo>, n: nat): seq<PackInfo> {
    if n == 0 then [] else Pages(xs, n - 1) + Window(xs, (n - 1) * PacksPerPage)
  }

  function Min(a: int, b: int): int {
    if a <= b then a else b
  }

  /** Page `n` is the slice of the packs from position `12 (n - 1)` to
      `12 n`, cut at the end. */
  lemma WindowIsSlice(xs: seq<PackInfo>, n: nat)
    requires n >= 1
    ensures Window(xs, (n - 1) * PacksPerPage)
      == xs[Min(|xs|, (n - 1) * PacksPerPage)..Min(|xs|, n * PacksPerPage)]
  {
    assert n * PacksPerPage == (n - 1) * PacksPerPage + PacksPerPage;
  }

  lemma JoinSlices(xs: seq<PackInfo>, a: nat, b: nat)
    requires a <= b <= |xs|
    ensures xs[..a] + xs[a..b] == xs[..b]
  {
  }

  /** Reading pages 1 to `n` in turn visits the first `12 n` packs once
      each, in order: no pack is skipped or shown twice. */
  lemma {:induction false} PagesTile(xs: seq<PackInfo>, n: nat)
    ensures Pages(xs, n) == xs[..Min(|xs|, n * PacksPerPage)]
  {
    if n > 0 {
      PagesTile(xs, n - 1);
      WindowIsSlice(xs, n);
      JoinSlices(xs, Min(|xs|, (n - 1) * PacksPerPage), Min(|xs|, n * PacksPerPage));
    }
  }

  /* -------------------------------------------------------------------- */
  /* The route                                                            */
  /* -------------------------------------------------------------------- */

  /** `GET /?page=&sort=&search=`. The reply carries the page alone. A
      negative skip is refused by the storage engine, which the route
      answers with 500. */
  function List(store: Store, order: seq<string>, page: Option<string>, sort: Option<string>,
                search: Option<string>, matches: Matcher): (r: Outcome)
    requires ScanOrder(store, order)
    ensures r.Failed? <==> SkipFor(page) < 0
    ensures r.Failed? ==> r.error == InternalError
    // the page is the catalogue's window at the skip the `page` query gives
    ensures r.Done? ==>
      && r.reply.body.PackPage?
      && r.reply.body.packs == Window(Catalogue(store, order, sort, search, matches), SkipFor(page))
    ensures r.Done? ==>
      && r.store == store && r.released == [] && r.reply.status == 200
      && r.reply.body.PackPage?
      && |r.reply.body.packs| <= PacksPerPage
      && SortedBy(SortFor(sort), r.reply.body.packs)
      && forall i :: 0 <= i < |r.reply.body.packs| ==>
           var p := r.reply.body.packs[i];
           && Eligible(p, search, matches)
           && exists k :: k in store && p == InfoOf(store[k])
  {
    var skip := SkipFor(page);
    if skip < 0 then Failed(InternalError)
    else
      var packs := Window(Catalogue(store, order, sort, search, matches), skip);
      WindowFacts(store, order, sort, search, matches, skip);
      Done(store, Reply(200, PackPage(packs)), [])
  }

  /** A window of the catalogue is sorted and holds eligible packs of the
      store. */
  lemma WindowFacts(store: Store, order: seq<string>, sort: Option<string>,
                    search: Option<string>, matches: Matcher, skip: nat)
    ensures var packs := Window(Catalogue(store, order, sort, search, matches), skip);
      && SortedBy(SortFor(sort), packs)
      && forall i :: 0 <= i < |packs| ==>
           && Eligible(packs[i], search, matches)
           && exists k :: k in store && packs[i] == InfoOf(store[k])
  {
    var all := Catalogue(store, order, sort, search, matches);
    var packs := Window(all, skip);
    CatalogueMembers(store, order, sort, search, matches);
    assert forall i :: 0 <= i < |packs| ==> packs[i] in all;
    forall i, j | 0 <= i < j < |packs|
      ensures SortKey(SortFor(sort), packs[i]) <= SortKey(SortFor(sort), packs[j])
    {
      assert packs[i] == all[skip + i] && packs[j] == all[skip + j];
    }
  }

  /** The pack at position `i` is on page `i / 12 + 1`. */
  lemma OnItsPage(all: seq<PackInfo>, i: nat)
    requires i < |all|
    ensures all[i] in Window(all, i / PacksPerPage * PacksPerPage)
  {
    var start := i / PacksPerPage * PacksPerPage;
    var w := Window(all, start);
    assert start <= i < start + PacksPerPage;
    assert w[i - start] == all[i];
  }

  /** The catalogue, page by page: every eligible pack of the store is on
      a page, the one for its place in the sorted catalogue. */
  lemma CatalogueIsPaged(store: Store, order: seq<string>, sort: Option<string>,
                         search: Option<string>, matches: Matcher, k: string)
    requires ScanOrder(store, order)
    requires k in store && Eligible(InfoOf(store[k]), search, matches)
    ensures exists i :: (0 <= i < |Catalogue(store, order, sort, search, matches)|
      && Catalogue(store, order, sort, search, matches)[i] == InfoOf(store[k])
      && InfoOf(store[k]) in Window(Catalogue(store, order, sort, search, matches), i / PacksPerPage * PacksPerPage))
  {
    var all := Catalogue(store, order, sort, search, matches);
    CatalogueComplete(store, order, sort, search, matches, k);
    var i :| 0 <= i < |all| && all[i] == InfoOf(store[k]);
    OnItsPage(all, i);
  }

  /** Asking for page `n` (n >= 1) shows the `n`-th run of twelve in the
      catalogue. */
  lemma ListShowsPage(store: Store, order: seq<string>, n: nat, sort: Option<string>,
                      search: Option<string>, matches: Matcher)
    requires ScanOrder(store, order)
    requires n >= 1
    ensures List(store, order, Some(Decimal(n)), sort, search, matches) ==
      Done(store, Reply(200, PackPage(Window(Catalogue(store, order, sort, search, matches),
                                             (n - 1) * PacksPerPage))), [])
  {
    PageSkip(n);
  }
}
