/** The earlier, single-threaded crawler of DeepWebsiteScraper.py.

    One `while` loop takes URLs off a FIFO queue, fetches each new one,
    records it when its text contains the search term and queues the links
    of the page that stay on the start URL's host. URLs are not
    normalized, only cut at their fragment. The network (`_fetch`) and
    BeautifulSoup (the page text and the resolved anchors) are oracles
    fixed when the scraper is built. */
module SimpleCrawler {
  import opened Strings
  import opened UrlUtils
  import opened LinkUtils
  import HtmlUtils

  /** The page budget `crawl` stops at. */
  const MaxPages: nat := 500

  class DeepSiteScraper {
    const baseUrl: string
    const domain: string
    const searchTerm: string
    const maxPages: nat
    const bannedExtensions: set<string>
    /** `_fetch`: the page's HTML, or "" for a non-HTML answer or an error. */
    const fetch: string -> string
    /** The text BeautifulSoup leaves of a page once its script, style,
        nav, footer and header elements are removed. */
    const pageText: string -> string
    /** The `href`s of a page's `<a>` elements, resolved by `urljoin`
        against the page's URL. */
    const anchors: (string, string) -> seq<string>

    var found: set<string>
    var visited: set<string>
    var queue: seq<string>
    var running: bool
    /** The URLs in the order they were fetched. */
    ghost var fetchLog: seq<string>

    /** `_is_valid_url`: the host is the start URL's host, the lowercased
        path ends in no banned extension and the scheme is http or https.
        It makes the same test as `is_valid_url` of utils/url_utils.py. */
    predicate IsValid(url: string): (r: bool)
      ensures r <==> IsValidUrl(url, domain, bannedExtensions)
    {
      var parsed := Parse(url);
      && parsed.netloc == domain
      && !HasBannedExtension(Lower(parsed.path), bannedExtensions)
      && parsed.scheme in ["http", "https"]
    }

    /** `_check_content`: the lowercased page text contains the term, that
        is, a left-to-right scan for the term finds a match. */
    predicate CheckContent(html: string): (r: bool)
      ensures r <==> HtmlUtils.Matches(Lower(pageText(html)), searchTerm) != []
    {
      HtmlUtils.MatchesEmptyIff(Lower(pageText(html)), searchTerm);
      Contains(Lower(pageText(html)), searchTerm)
    }

    /** What `_extract_links` keeps of one resolved anchor: the URL cut at
        its fragment, when that is valid. */
    function Keep(a: string): (r: Option<string>)
      ensures r.Some? <==> IsValid(CutFragment(a))
      ensures r.Some? ==> r.value == CutFragment(a)
    {
      var absoluteUrl := CutFragment(a);
      if IsValid(absoluteUrl) then Some(absoluteUrl) else None
    }

    /** What `_extract_links` returns for the resolved anchors of a page. */
    function KeptLinks(hrefs: seq<string>): set<string>
    {
      Collect(hrefs, Keep)
    }

    /** A link is kept exactly when it is valid and some anchor, cut at its
        fragment, gives it; so no kept link holds a fragment. */
    lemma KeptLinksIff(hrefs: seq<string>, link: string)
      ensures link in KeptLinks(hrefs) <==>
                IsValid(link) && exists a | a in hrefs :: CutFragment(a) == link
      ensures link in KeptLinks(hrefs) ==> '#' !in link
    {
      CollectIff(hrefs, Keep, link);
      if IsValid(link) && exists a | a in hrefs :: CutFragment(a) == link {
        var a :| a in hrefs && CutFragment(a) == link;
        assert Keep(a) == Some(link);
      }
    }

    /** `_extract_links(html, base_url)`. */
    method ExtractLinks(html: string, pageUrl: string) returns (links: set<string>)
      ensures links == KeptLinks(anchors(html, pageUrl))
    {
      links := CollectEach(anchors(html, pageUrl), Keep);
    }

    /** A queued URL is the start URL or a link some page gave. */
    predicate Queueable(u: string)
    {
      u == baseUrl || (IsValid(u) && '#' !in u)
    }

    /** The links `_extract_links` gives for the page at `u`. */
    function PageLinks(u: string): set<string>
    {
      KeptLinks(anchors(fetch(u), u))
    }

    /** `u` is the start URL or a link of a page in `v`. */
    ghost predicate Reached(v: set<string>, u: string)
    {
      u == baseUrl || exists w | w in v :: u in PageLinks(w)
    }

    /** What the loop keeps true: at most `maxPages` pages visited, only
        visited pages that were fetched and matched are found, every such
        visited page is found, every visited URL fetched exactly once, each
        one the start URL or a link of a page fetched before it, only the
        start URL and valid fragment-free links queued, every queued URL the
        start URL or a link of a visited page, the start URL visited or
        queued, and the links of every fetched visited page visited or
        queued. */
    ghost predicate Invariant(v: set<string>, f: set<string>, q: seq<string>, log: seq<string>)
    {
      && |v| <= maxPages
      && f <= v
      && (forall u | u in f :: fetch(u) != "" && CheckContent(fetch(u)))
      && (forall u | u in v && fetch(u) != "" && CheckContent(fetch(u)) :: u in f)
      && LogsVisits(log, v)
      && (forall u | u in q :: Queueable(u))
      && Chained(log, baseUrl, PageLinks)
      && (forall u | u in q :: Reached(v, u))
      && (baseUrl in v || baseUrl in q)
      && (forall u | u in v && fetch(u) != "" :: PageLinks(u) <= v + Elems(q))
    }

    ghost predicate Valid()
      reads this
    {
      Invariant(visited, found, queue, fetchLog)
    }

    /** Skipping a visited head URL keeps the invariant. */
    lemma SkipStep(v: set<string>, f: set<string>, q: seq<string>, log: seq<string>)
      requires Invariant(v, f, q, log) && q != [] && q[0] in v
      ensures Invariant(v, f, q[1..], log)
    {
      assert forall u | u in q[1..] :: u in q;
      assert forall u | u in q :: u == q[0] || u in q[1..];
      assert Elems(q) <= v + Elems(q[1..]);
    }

    /** Visiting a new head URL keeps the invariant: it joins `visited` and
        the log, `found` gains it only on a match, and the links pushed are
        kept ones. */
    lemma VisitStep(v: set<string>, f: set<string>, q: seq<string>, log: seq<string>,
                    u: string, pushed: seq<string>,
                    v': set<string>, f': set<string>, q': seq<string>, log': seq<string>)
      requires Invariant(v, f, q, log) && q != [] && q[0] == u && u !in v && |v| < maxPages
      requires Elems(pushed) == if fetch(u) != "" then PageLinks(u) - (v + {u}) else {}
      requires v' == v + {u} && log' == log + [u] && q' == q[1..] + pushed
      requires f' == if fetch(u) != "" && CheckContent(fetch(u)) then f + {u} else f
      ensures Invariant(v', f', q', log')
    {
      LogStep(v, log, u);
      QueueReachStep(v, q, u, pushed);
      ChainVisit(v, q, log, u);
      FollowStep(v, q, u, pushed);
    }

    /** After a visit of the head `u`, every queued URL is still queueable
        and is the start URL or a link of a visited page. */
    lemma QueueReachStep(v: set<string>, q: seq<string>, u: string, pushed: seq<string>)
      requires q != [] && q[0] == u
      requires forall x | x in q :: Queueable(x) && Reached(v, x)
      requires Elems(pushed) <= PageLinks(u)
      ensures forall x | x in q[1..] + pushed :: Queueable(x) && Reached(v + {u}, x)
    {
      forall x | x in q[1..] + pushed
        ensures Queueable(x) && Reached(v + {u}, x)
      {
        if x in q[1..] {
          assert x in q;
          ReachedGrows(v, v + {u}, x);
        } else {
          assert x in Elems(pushed);
          KeptLinksIff(anchors(fetch(u), u), x);
          assert u in v + {u};
        }
      }
    }

    /** Visiting the head `u`, which is the start URL or a link of a
        visited page, keeps the log chained from the start URL. */
    lemma ChainVisit(v: set<string>, q: seq<string>, log: seq<string>, u: string)
      requires q != [] && q[0] == u
      requires forall x | x in q :: Reached(v, x)
      requires Chained(log, baseUrl, PageLinks) && LogsVisits(log, v)
      ensures Chained(log + [u], baseUrl, PageLinks)
    {
      assert u in q;
      if u != baseUrl {
        var w :| w in v && u in PageLinks(w);
        assert w in log;
      }
      ChainStep(log, baseUrl, PageLinks, u);
    }

    /** After a visit of the head `u`, the links of every fetched visited
        page are visited or queued. */
    lemma FollowStep(v: set<string>, q: seq<string>, u: string, pushed: seq<string>)
      requires q != [] && q[0] == u
      requires forall x | x in v && fetch(x) != "" :: PageLinks(x) <= v + Elems(q)
      requires Elems(pushed) == if fetch(u) != "" then PageLinks(u) - (v + {u}) else {}
      ensures forall x | x in v + {u} && fetch(x) != "" :: PageLinks(x) <= v + {u} + Elems(q[1..] + pushed)
    {
      var rest := Elems(q[1..] + pushed);
      assert forall x | x in q :: x == q[0] || x in q[1..];
      assert Elems(q) <= v + {u} + rest;
      assert Elems(pushed) <= rest;
      forall x | x in v + {u} && fetch(x) != ""
        ensures PageLinks(x) <= v + {u} + rest
      {
        if x == u {
          assert PageLinks(u) <= v + {u} + Elems(pushed);
        }
      }
    }

    /** Visiting more pages keeps a reached URL reached. */
    lemma ReachedGrows(v: set<string>, v': set<string>, u: string)
      requires v <= v' && Reached(v, u)
      ensures Reached(v', u)
    {
      if u != baseUrl {
        var w :| w in v && u in PageLinks(w);
        assert w in v';
      }
    }

    constructor (baseUrl: string, searchTerm: string, fetch: string -> string,
                 pageText: string -> string, anchors: (string, string) -> seq<string>)
      ensures Valid()
      ensures this.baseUrl == baseUrl && this.domain == Parse(baseUrl).netloc
      ensures this.searchTerm == Lower(searchTerm)
      ensures this.maxPages == MaxPages && this.bannedExtensions == BannedExtensions
      ensures this.fetch == fetch && this.pageText == pageText && this.anchors == anchors
      ensures found == {} && visited == {} && queue == [baseUrl] && running
    {
      this.baseUrl, this.domain, this.searchTerm := baseUrl, Parse(baseUrl).netloc, Lower(searchTerm);
      this.maxPages, this.bannedExtensions := MaxPages, BannedExtensions;
      this.fetch, this.pageText, this.anchors := fetch, pageText, anchors;
      found, visited, queue, running := {}, {}, [baseUrl], true;
      fetchLog := [];
    }

    /** `_exit_gracefully`: the loop condition turns false. */
    method ExitGracefully()
      modifies this`running
      ensures !running
    {
      running := false;
    }

    /** The push loop (DeepWebsiteScraper.py:102-104): in the set's
        iteration order, every link not yet visited is put on the queue. */
    method EnqueueNew(links: set<string>) returns (pushed: seq<string>)
      modifies this`queue
      ensures Elems(pushed) == links - visited && Distinct(pushed)
      ensures queue == old(queue) + pushed
    {
      pushed := [];
      var rest := links;
      ghost var queue0 := queue;
      while rest != {}
        invariant rest <= links
        invariant Elems(pushed) == links - rest - visited && Distinct(pushed)
        invariant queue == queue0 + pushed
        decreases |rest|
      {
        var link :| link in rest;
        TakeOne(links, rest, visited, Elems(pushed), link);
        if link !in visited {
          queue := queue + [link];
          AppendFresh(pushed, link);
          assert queue == queue0 + (pushed + [link]);
          pushed := pushed + [link];
        }
        rest := rest - {link};
      }
    }

    /** A URL `u` not yet visited, just taken off the queue, is handled
        (DeepWebsiteScraper.py:89-104): it is visited and fetched, found
        when the page matches, and the page's links not yet visited are
        queued. An empty page adds nothing to `found` and queues nothing. */
    method VisitNew(u: string) returns (pushed: seq<string>)
      modifies this`visited, this`found, this`queue, this`fetchLog
      ensures visited == old(visited) + {u}
      ensures fetchLog == old(fetchLog) + [u]
      ensures found == if fetch(u) != "" && CheckContent(fetch(u)) then old(found) + {u} else old(found)
      ensures Elems(pushed) == if fetch(u) != "" then PageLinks(u) - visited else {}
      ensures Distinct(pushed)
      ensures queue == old(queue) + pushed
    {
      visited := visited + {u};
      fetchLog := fetchLog + [u];
      var html := fetch(u);
      if html != "" {
        if CheckContent(html) {
          found := found + {u};
        }
        var newLinks := ExtractLinks(html, u);
        pushed := EnqueueNew(newLinks);
      } else {
        pushed := [];
        assert Elems(pushed) == {};
      }
    }

    /** The body of the `crawl` loop (DeepWebsiteScraper.py:84-104): the
        head URL is dropped when visited; otherwise it is visited and
        fetched, found when the page matches, and the page's new links are
        queued. An empty page adds nothing to `found` and queues nothing. */
    method Step() returns (pushed: seq<string>)
      requires Valid() && queue != [] && |visited| < maxPages
      modifies this`visited, this`found, this`queue, this`fetchLog
      ensures Valid()
      ensures old(queue)[0] in old(visited) ==>
                && visited == old(visited) && found == old(found)
                && fetchLog == old(fetchLog) && queue == old(queue)[1..] && pushed == []
      ensures old(queue)[0] !in old(visited) ==>
                var u := old(queue)[0];
                && visited == old(visited) + {u}
                && fetchLog == old(fetchLog) + [u]
                && found == (if fetch(u) != "" && CheckContent(fetch(u)) then old(found) + {u} else old(found))
                && Elems(pushed) == (if fetch(u) != "" then PageLinks(u) - visited else {})
                && Distinct(pushed)
                && queue == old(queue)[1..] + pushed
    {
      ghost var v, f, q, log := visited, found, queue, fetchLog;
      var currentUrl := queue[0];
      queue := queue[1..];
      if currentUrl in visited {
        SkipStep(v, f, q, log);
        return [];
      }
      pushed := VisitNew(currentUrl);
      VisitStep(v, f, q, log, currentUrl, pushed, visited, found, queue, fetchLog);
    }

    /** What holds once the `crawl` loop stops with the invariant: `found`
        is exactly the visited pages that were fetched and match, every
        visited page is reached from the start URL through visited pages,
        and when the crawl was not stopped and the budget not used up (so
        the queue ran dry), the start URL and every link of every fetched
        visited page were visited. */
    lemma Finished(v: set<string>, f: set<string>, q: seq<string>, log: seq<string>, r: bool)
      requires Invariant(v, f, q, log) && !(r && q != [] && |v| < maxPages)
      ensures forall u :: u in f <==> u in v && fetch(u) != "" && CheckContent(fetch(u))
      ensures r && |v| < maxPages ==>
                && baseUrl in v
                && forall u | u in v && fetch(u) != "" :: PageLinks(u) <= v
      ensures forall u | u in v :: exists path :: PathTo(path, u, baseUrl, PageLinks, v)
    {
      assert r && |v| < maxPages ==> Elems(q) == {};
      ChainedReach(log, v, baseUrl, PageLinks);
    }

    /** `crawl`: the loop runs while `running` holds, the queue is not
        empty and fewer than `maxPages` pages were visited. Every pass
        either visits a new URL, which the page budget bounds, or drops one
        queued URL, so the loop ends. */
    method Crawl()
      requires Valid()
      modifies this`visited, this`found, this`queue, this`fetchLog
      ensures Valid()
      ensures !running || queue == [] || |visited| == maxPages
      ensures old(visited) <= visited && old(found) <= found
      ensures forall u :: u in found <==> u in visited && fetch(u) != "" && CheckContent(fetch(u))
      ensures running && |visited| < maxPages ==>
                && baseUrl in visited
                && forall u | u in visited && fetch(u) != "" :: PageLinks(u) <= visited
      ensures forall u | u in visited :: exists path :: PathTo(path, u, baseUrl, PageLinks, visited)
    {
      while running && queue != [] && |visited| < maxPages
        invariant Valid()
        invariant old(visited) <= visited && old(found) <= found
        decreases maxPages - |visited|, |queue|
      {
        var _ := Step();
      }
      Finished(visited, found, queue, fetchLog, running);
    }
  }
}
