/**
  Paginated listings, plain and through the ETag cache (src/github_client.cpp:430-582; sections
  13.1.2 and 15.4.5 of RFC 9110). A page's body is taken as its list of items, and its Link header
  as the path that LinkHeader.NextPath makes of it.
 */
module PageCache {
  import opened Text

  type Item = string

  datatype Page = Page(etag: string, items: seq<Item>, next: Option<string>)

  /** What the server would answer for each path while one walk lasts. */
  type Site = map<string, Page>

  /** The paths that the plain walk visits: it follows links to the last page, or to a page that is not there. */
  predicate Chain(site: Site, path: string, chain: seq<string>)
    decreases chain
  {
    && chain != [] && chain[0] == path
    && (if path in site && site[path].next.Some?
        then Chain(site, site[path].next.value, chain[1..])
        else |chain| == 1)
  }

  /** The items of the pages along a chain. */
  function Items(site: Site, chain: seq<string>): seq<Item> {
    if chain == [] then []
    else Items(site, chain[..|chain| - 1]) + if chain[|chain| - 1] in site then site[chain[|chain| - 1]].items else []
  }

  /** The part of a chain that the conditional walk visits: it takes an empty path for "no next page". */
  function Followed(chain: seq<string>): (r: seq<string>)
    ensures r <= chain
    ensures chain != [] ==> r != [] && r[0] == chain[0]
  {
    if |chain| <= 1 || chain[1] == [] then (if chain == [] then [] else [chain[0]])
    else [chain[0]] + Followed(chain[1..])
  }

  /** The GETs from number `first` on, one for each of these paths, all bring a page. */
  ghost predicate Served(site: Site, chain: seq<string>, fails: nat -> bool, first: nat) {
    forall k :: 0 <= k < |chain| ==> ServedAt(site, chain, fails, first, k)
  }

  predicate ServedAt(site: Site, chain: seq<string>, fails: nat -> bool, first: nat, k: nat)
    requires k < |chain|
  {
    !fails(first + k) && chain[k] in site
  }

  /** The same for the pages that following links from `path` visits; an empty path needs none. */
  ghost predicate LinksServed(site: Site, path: string, chain: seq<string>, fails: nat -> bool, first: nat) {
    path == [] || Served(site, Followed(chain), fails, first)
  }

  /** What the conditional walk comes to. */
  ghost function Outcome(site: Site, chain: seq<string>, fails: nat -> bool): Option<seq<Item>> {
    if Served(site, Followed(chain), fails, 0) then Some(Items(site, Followed(chain))) else None
  }

  datatype Reply = PageReply(page: Page) | NotModified | Failure

  datatype CacheEntry = CacheEntry(etag: string, pages: seq<seq<Item>>)

  /** RFC 9110: for one URL, equal entity tags mean equal representations, over all time. */
  ghost predicate TagsTell(seen: set<(string, Page)>, site: Site) {
    forall url, page :: (url, page) in seen && url in site && page.etag != [] && page.etag == site[url].etag
      ==> page.items == site[url].items && page.next == site[url].next
  }

  /** Everything newly seen is a page of the site. */
  ghost predicate SeenFrom(before: set<(string, Page)>, after: set<(string, Page)>, site: Site) {
    before <= after && forall url, page :: (url, page) in after && (url, page) !in before ==> url in site && site[url] == page
  }

  predicate SinglePage(page: Page) {
    page.next.GetOr("") == []
  }

  class PageCache {
    var cache: map<string, CacheEntry>
    /** Every page any walk has ever been served. */
    ghost var seen: set<(string, Page)>

    constructor ()
      ensures cache == map[] && seen == {} && Valid()
    {
      cache := map[];
      seen := {};
    }

    /** An entry is the whole of a listing that fit on one page, as the server once served it. */
    ghost predicate Backed(key: string, entry: CacheEntry, page: Page) {
      && page.etag == entry.etag != [] && entry.pages == [page.items] && SinglePage(page)
    }

    ghost predicate Valid()
      reads this
    {
      forall key :: key in cache ==> exists page :: (key, page) in seen && Backed(key, cache[key], page)
    }

    /**
     A GET. It fails if the network or the server does, or if there is no such page; the server may
     answer 304 only if the tag still matches.
     */
    method Get(site: Site, path: string, ifNoneMatch: string, fails: bool) returns (r: Reply)
      modifies this`seen
      ensures r.Failure? <==> fails || path !in site
      ensures r.PageReply? ==> path in site && r.page == site[path]
      ensures r.PageReply? ==> (path, r.page) in seen
      ensures SeenFrom(old(seen), seen, site)
      ensures r.NotModified? ==> ifNoneMatch != [] && path in site && site[path].etag == ifNoneMatch
    {
      if fails || path !in site { return Failure; }
      seen := seen + {(path, site[path])};
      r := PageReply(site[path]);
      if ifNoneMatch != [] && site[path].etag == ifNoneMatch {
        if * { r := NotModified; }
      }
    }

    /** The plain walk. None means it threw, which it does exactly if one of its pages is not served. */
    method WalkPages(site: Site, path: string, fails: nat -> bool, ghost chain: seq<string>) returns (r: Option<seq<Item>>)
      requires Chain(site, path, chain) && Valid()
      modifies this`seen
      ensures Valid() && SeenFrom(old(seen), seen, site)
      ensures r == if Served(site, chain, fails, 0) then Some(Items(site, chain)) else None
    {
      var out: seq<Item> := [];
      var next := path;
      var n := 0;
      while true
        invariant n < |chain| && Chain(site, next, chain[n..]) && Served(site, chain[..n], fails, 0)
        invariant out == Items(site, chain[..n]) && Valid() && SeenFrom(old(seen), seen, site)
        decreases |chain| - n
      {
        var res := Get(site, next, "", fails(n));
        ChainNext(site, next, chain, n);
        if !res.PageReply? {
          assert !ServedAt(site, chain, fails, 0, n);
          return None;
        }
        ServedNext(site, chain, fails, n);
        out := out + res.page.items;
        n := n + 1;
        if res.page.next.None? { break; }
        next := res.page.next.value;
      }
      assert chain[..n] == chain;
      return Some(out);
    }

    /** The entry that a completed walk leaves behind: a single tagged page, or nothing. */
    ghost function Refreshed(cache: map<string, CacheEntry>, path: string, page: Page): map<string, CacheEntry> {
      if page.etag != [] && SinglePage(page) then cache[path := CacheEntry(page.etag, [page.items])]
      else cache - {path}
    }

    /**
     The conditional walk. It returns what a plain walk would find now, up to an empty link, and
     throws exactly if one of those pages is not served.
     */
    method WalkPagesConditional(site: Site, path: string, fails: nat -> bool, ghost chain: seq<string>)
      returns (r: Option<seq<Item>>)
      requires Chain(site, path, chain) && Valid() && TagsTell(seen, site)
      modifies this
      ensures Valid() && SeenFrom(old(seen), seen, site)
      ensures r == Outcome(site, chain, fails)
      ensures r.None? ==> cache == old(cache)
      ensures r.Some? ==> path in site && cache == Refreshed(old(cache), path, site[path])
    {
      var ifNoneMatch := if path in cache then cache[path].etag else "";
      var res := Get(site, path, ifNoneMatch, fails(0));
      match res {
        case Failure =>
          assert !ServedAt(site, Followed(chain), fails, 0, 0);
          return None;
        case NotModified =>
          FreshEntry(site, path, chain);
          assert Followed(chain) == [path] && ServedAt(site, [path], fails, 0, 0);
          var out := cache[path].pages[0];
          return Some(out);
        case PageReply(first) =>
          var out := first.items;
          var next := first.next.GetOr("");
          var multiPage := next != [];
          FollowedStep(site, path, chain);
          ServedStep(site, path, chain, fails, 0);
          var all := FollowLinks(site, next, out, fails, chain[1..]);
          if all.None? { return None; }
          Remember(path, first, multiPage);
          return all;
      }
    }

    /** Only a listing that fit on one page is remembered; one that has grown is forgotten. */
    method Remember(path: string, first: Page, multiPage: bool)
      requires Valid() && (path, first) in seen && (multiPage <==> !SinglePage(first))
      modifies this`cache
      ensures Valid() && cache == Refreshed(old(cache), path, first)
    {
      if first.etag != [] && !multiPage {
        cache := cache[path := CacheEntry(first.etag, [first.items])];
        assert Backed(path, cache[path], first);
      } else {
        cache := cache - {path};
      }
    }

    /** The pages after the first, unconditionally. `chain` starts at `path` unless that is empty. */
    method FollowLinks(site: Site, path: string, sofar: seq<Item>, fails: nat -> bool, ghost chain: seq<string>)
      returns (r: Option<seq<Item>>)
      requires path != [] ==> Chain(site, path, chain)
      requires Valid()
      modifies this`seen
      ensures Valid() && SeenFrom(old(seen), seen, site)
      ensures r == if LinksServed(site, path, chain, fails, 1) then Some(sofar + FollowedItems(site, path, chain)) else None
    {
      var out, next := sofar, path;
      var n := 1;
      ghost var rest := chain;
      while next != []
        invariant next != [] ==> Chain(site, next, rest)
        invariant Valid() && SeenFrom(old(seen), seen, site)
        invariant LinksServed(site, path, chain, fails, 1) <==> LinksServed(site, next, rest, fails, n)
        invariant sofar + FollowedItems(site, path, chain) == out + FollowedItems(site, next, rest)
        decreases next != [], |rest|
      {
        var page := Get(site, next, "", fails(n));
        if !page.PageReply? {
          assert !ServedAt(site, Followed(rest), fails, n, 0);
          return None;
        }
        FollowedStep(site, next, rest);
        ServedStep(site, next, rest, fails, n);
        Regroup(out, page.page.items, FollowedItems(site, site[next].next.GetOr(""), rest[1..]));
        out := out + page.page.items;
        next := page.page.next.GetOr("");
        rest := rest[1..];
        n := n + 1;
      }
      assert out + [] == out;
      return Some(out);
    }

    /** A 304 vouches for the stored page: it is the page the server has now, and it is the only one. */
    lemma FreshEntry(site: Site, path: string, chain: seq<string>)
      requires Chain(site, path, chain) && Valid() && TagsTell(seen, site)
      requires path in cache && path in site && site[path].etag == cache[path].etag
      ensures cache[path] == CacheEntry(site[path].etag, [site[path].items])
      ensures Items(site, Followed(chain)) == site[path].items
    {
      var page :| (path, page) in seen && Backed(path, cache[path], page);
      assert Followed(chain) == [path];
      assert [path][..0] == [];
    }
  }

  /** The items that following links from `path` brings; an empty path brings none. */
  function FollowedItems(site: Site, path: string, chain: seq<string>): seq<Item> {
    if path == [] then [] else Items(site, Followed(chain))
  }

  lemma FollowedStep(site: Site, path: string, chain: seq<string>)
    requires Chain(site, path, chain) && path in site
    ensures Items(site, Followed(chain)) == site[path].items + FollowedItems(site, site[path].next.GetOr(""), chain[1..])
    ensures site[path].next.GetOr("") != [] ==> Chain(site, site[path].next.value, chain[1..])
  {
    assert Items(site, [path]) == site[path].items by { assert [path][..0] == []; }
    if site[path].next.GetOr("") != [] {
      ItemsConcat(site, [path], Followed(chain[1..]));
    } else {
      assert Followed(chain) == [path];
    }
  }

  lemma ChainNext(site: Site, path: string, chain: seq<string>, n: nat)
    requires n < |chain| && Chain(site, path, chain[n..])
    ensures chain[n] == path
    ensures if path in site && site[path].next.Some?
            then n + 1 < |chain| && Chain(site, site[path].next.value, chain[n + 1..])
            else |chain| == n + 1
    ensures Items(site, chain[..n + 1]) == Items(site, chain[..n]) + if path in site then site[path].items else []
  {
    assert chain[..n + 1][..n] == chain[..n] && chain[n..][1..] == chain[n + 1..];
  }

  lemma ServedNext(site: Site, chain: seq<string>, fails: nat -> bool, n: nat)
    requires n < |chain| && Served(site, chain[..n], fails, 0) && ServedAt(site, chain, fails, 0, n)
    ensures Served(site, chain[..n + 1], fails, 0)
  {
    var more := chain[..n + 1];
    forall k: nat | k < n + 1 ensures ServedAt(site, more, fails, 0, k) {
      if k < n { assert ServedAt(site, chain[..n], fails, 0, k); }
    }
  }

  lemma ServedStep(site: Site, path: string, chain: seq<string>, fails: nat -> bool, first: nat)
    requires Chain(site, path, chain) && path in site && !fails(first)
    ensures Served(site, Followed(chain), fails, first)
       <==> LinksServed(site, site[path].next.GetOr(""), chain[1..], fails, first + 1)
  {
    if site[path].next.GetOr("") != [] {
      assert Followed(chain) == [path] + Followed(chain[1..]);
      ServedCons(site, path, Followed(chain[1..]), fails, first);
    } else {
      assert Followed(chain) == [path];
    }
  }

  lemma ServedCons(site: Site, path: string, rest: seq<string>, fails: nat -> bool, first: nat)
    requires path in site && !fails(first)
    ensures Served(site, [path] + rest, fails, first) <==> Served(site, rest, fails, first + 1)
  {
    var all, second := [path] + rest, first + 1;
    assert ServedAt(site, all, fails, first, 0);
    forall k: nat | k < |rest| ensures ServedAt(site, rest, fails, second, k) <==> ServedAt(site, all, fails, first, k + 1) {
      assert first + (k + 1) == second + k;
    }
    if Served(site, rest, fails, second) {
      forall k: nat | k < |all| ensures ServedAt(site, all, fails, first, k) {
        if k > 0 { assert ServedAt(site, rest, fails, second, k - 1); }
      }
    }
  }

  // --- How the two walks relate ------------------------------------------------------

  lemma {:induction false} ItemsConcat(site: Site, a: seq<string>, b: seq<string>)
    ensures Items(site, a + b) == Items(site, a) + Items(site, b)
  {
    if b == [] {
      assert a + b == a;
    } else {
      ItemsConcat(site, a, b[..|b| - 1]);
      assert (a + b)[..|a + b| - 1] == a + b[..|b| - 1];
    }
  }

  lemma {:induction false} FollowedIsAll(chain: seq<string>)
    requires forall i :: 1 <= i < |chain| ==> chain[i] != []
    ensures Followed(chain) == chain
  {
    if |chain| > 1 {
      assert forall i :: 1 <= i < |chain[1..]| ==> chain[1..][i] == chain[i + 1];
      FollowedIsAll(chain[1..]);
    } else if |chain| == 1 {
      assert chain == [chain[0]];
    }
  }

  /**
   The plain walk returns what the conditional walk returns, and then the items behind an empty
   link, if there is one. So they agree if no page links to an empty path, and exactly when
   nothing stands behind the first such link.
   */
  lemma PlainIsConditionalThenRest(site: Site, chain: seq<string>)
    ensures Items(site, chain) == Items(site, Followed(chain)) + Items(site, chain[|Followed(chain)|..])
    ensures Items(site, chain) == Items(site, Followed(chain)) <==> Items(site, chain[|Followed(chain)|..]) == []
    ensures (forall i :: 1 <= i < |chain| ==> chain[i] != []) ==> Followed(chain) == chain
  {
    var rest := chain[|Followed(chain)|..];
    ItemsConcat(site, Followed(chain), rest);
    assert chain == Followed(chain) + rest;
    if forall i :: 1 <= i < |chain| ==> chain[i] != [] { FollowedIsAll(chain); }
  }

  /** Two pages, the second behind an empty link: one walk returns it, the other does not. */
  lemma WalksDiffer() returns (site: Site, chain: seq<string>)
    ensures chain != [] && Chain(site, chain[0], chain)
    ensures Items(site, chain) == ["a", "b"] && Items(site, Followed(chain)) == ["a"]
  {
    site := map["/x" := Page("t", ["a"], Some("")), "" := Page("u", ["b"], None)];
    chain := ["/x", ""];
    assert chain[1..] == [""] && Chain(site, "", [""]);
    assert Items(site, ["/x"]) == ["a"] by { assert ["/x"][..0] == []; }
    assert chain[..1] == ["/x"];
    assert Followed(chain) == ["/x"];
  }

  // --- Whole histories -----------------------------------------------------------------

  /**
   One call: the server as it is then, the listing asked for, which of the GETs fail, and the pages a
   plain walk would visit.
   */
  datatype Call = Call(site: Site, path: string, fails: nat -> bool, ghost chain: seq<string>)

  ghost predicate TagsAgree(a: Site, b: Site) {
    forall url :: url in a && url in b && a[url].etag != [] && a[url].etag == b[url].etag
      ==> a[url].items == b[url].items && a[url].next == b[url].next
  }

  ghost predicate CallsOk(calls: seq<Call>) {
    && (forall i :: 0 <= i < |calls| ==> Chain(calls[i].site, calls[i].path, calls[i].chain))
    && (forall i, j :: 0 <= i < j < |calls| ==> TagsAgree(calls[i].site, calls[j].site))
  }

  /** An answer is what the walk finds on the server as it is at the time of the call; there is none exactly if a page is not served. */
  ghost predicate UpToDate(call: Call, result: Option<seq<Item>>) {
    result == Outcome(call.site, call.chain, call.fails)
  }

  ghost predicate ServedBefore(calls: seq<Call>, i: nat, url: string, page: Page) {
    exists k :: 0 <= k < i && k < |calls| && url in calls[k].site && calls[k].site[url] == page
  }

  ghost predicate SeenBefore(seen: set<(string, Page)>, calls: seq<Call>, i: nat) {
    forall url, page :: (url, page) in seen ==> ServedBefore(calls, i, url, page)
  }

  lemma TagsTellNow(seen: set<(string, Page)>, calls: seq<Call>, i: nat)
    requires i < |calls| && SeenBefore(seen, calls, i)
    requires forall j, k :: 0 <= j < k < |calls| ==> TagsAgree(calls[j].site, calls[k].site)
    ensures TagsTell(seen, calls[i].site)
  {
    forall url, page | (url, page) in seen && url in calls[i].site && page.etag != [] && page.etag == calls[i].site[url].etag
      ensures page.items == calls[i].site[url].items && page.next == calls[i].site[url].next
    {
      assert ServedBefore(calls, i, url, page);
      var k :| 0 <= k < i && url in calls[k].site && calls[k].site[url] == page;
      assert TagsAgree(calls[k].site, calls[i].site);
    }
  }

  lemma SeenStaysServed(before: set<(string, Page)>, after: set<(string, Page)>, calls: seq<Call>, i: nat)
    requires i < |calls| && SeenBefore(before, calls, i) && SeenFrom(before, after, calls[i].site)
    ensures SeenBefore(after, calls, i + 1)
  {
    forall url, page | (url, page) in after ensures ServedBefore(calls, i + 1, url, page) {
      if (url, page) in before { assert ServedBefore(calls, i, url, page); }
    }
  }

  /** For every history of server changes, failures and calls on any keys, no answer is stale. */
  method History(calls: seq<Call>) returns (results: seq<Option<seq<Item>>>)
    requires CallsOk(calls)
    ensures |results| == |calls|
    ensures forall i :: 0 <= i < |calls| ==> UpToDate(calls[i], results[i])
  {
    var cache := new PageCache();
    results := [];
    for i := 0 to |calls|
      invariant fresh(cache) && cache.Valid()
      invariant |results| == i
      invariant forall k :: 0 <= k < i ==> UpToDate(calls[k], results[k])
      invariant SeenBefore(cache.seen, calls, i)
    {
      var r := Answer(cache, calls, i);
      results := results + [r];
    }
  }

  method Answer(cache: PageCache, calls: seq<Call>, i: nat) returns (r: Option<seq<Item>>)
    requires i < |calls| && CallsOk(calls) && cache.Valid() && SeenBefore(cache.seen, calls, i)
    modifies cache
    ensures cache.Valid() && SeenBefore(cache.seen, calls, i + 1) && UpToDate(calls[i], r)
  {
    TagsTellNow(cache.seen, calls, i);
    ghost var before := cache.seen;
    r := cache.WalkPagesConditional(calls[i].site, calls[i].path, calls[i].fails, calls[i].chain);
    SeenStaysServed(before, cache.seen, calls, i);
  }
}
