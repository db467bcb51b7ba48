/** The threaded crawler of scraper/scraper.py.

    The shared state of `DeepSiteScraper` and the critical sections that
    change it are modelled one worker step at a time: each section guarded
    by `self.lock` is one method, and a crawl is the schedule in which one
    worker does all the work while the others find the queue empty. The
    network, robots.txt, BeautifulSoup and `urljoin` are oracles fixed when
    the scraper is built. */
module Crawler {
  import opened Strings
  import opened UrlUtils
  import opened LinkUtils
  import HtmlUtils

  /** A queue entry: a URL, or the `None` that tells a worker to stop. */
  datatype Item = Link(url: string) | Stop

  /** `queue.Queue` with its count of unfinished tasks: `put` adds one,
      `task_done` removes one, and `join` returns when none is left. */
  class TaskQueue {
    var items: seq<Item>
    var unfinished: nat
    /** How many items were taken with `get` and not yet marked done. */
    ghost var inFlight: nat

    ghost predicate Valid()
      reads this
    {
      unfinished == |items| + inFlight
    }

    constructor ()
      ensures Valid() && items == [] && inFlight == 0
    {
      items, unfinished, inFlight := [], 0, 0;
    }

    method Put(item: Item)
      requires Valid()
      modifies this
      ensures Valid() && items == old(items) + [item] && inFlight == old(inFlight)
    {
      items, unfinished := items + [item], unfinished + 1;
    }

    /** `get(timeout=2)`: with nothing to take the timeout runs out and
        `Empty` is raised (None here). */
    method Get() returns (r: Option<Item>)
      requires Valid()
      modifies this
      ensures Valid()
      ensures old(items) == [] ==> r == None && items == [] && inFlight == old(inFlight)
      ensures old(items) != [] ==> && r == Some(old(items)[0]) && items == old(items)[1..]
                                    && inFlight == old(inFlight) + 1
    {
      if items == [] {
        r := None;
      } else {
        r := Some(items[0]);
        items, inFlight := items[1..], inFlight + 1;
      }
    }

    /** `task_done`; Python raises ValueError when no task is unfinished. */
    method TaskDone()
      requires Valid() && unfinished > 0
      modifies this
      ensures items == old(items) && unfinished == old(unfinished) - 1
      ensures old(inFlight) > 0 ==> Valid() && inFlight == old(inFlight) - 1
    {
      unfinished := unfinished - 1;
      if inFlight > 0 {
        inFlight := inFlight - 1;
      }
    }
  }

  /** `[Link(u) for u in urls]`. */
  function Links(urls: seq<string>): (r: seq<Item>)
    ensures |r| == |urls| && forall i | 0 <= i < |r| :: r[i] == Link(urls[i])
  {
    seq(|urls|, i requires 0 <= i < |urls| => Link(urls[i]))
  }

  /** `[None] * n`. */
  function Stops(n: nat): (r: seq<Item>)
    ensures |r| == n && forall i | 0 <= i < n :: r[i] == Stop
  {
    seq(n, i => Stop)
  }

  /** Appending a URL: the queue entries, the elements and distinctness. */
  lemma PushOne(s: seq<string>, x: string)
    requires Distinct(s) && x !in Elems(s)
    ensures Distinct(s + [x])
    ensures Elems(s + [x]) == Elems(s) + {x}
    ensures Links(s + [x]) == Links(s) + [Link(x)]
  {
    AppendFresh(s, x);
  }

  /** Every discovered URL was visited, is waiting in the queue, or the
      page budget is used up. */
  ghost predicate Closed(discovered: set<string>, visited: set<string>, items: seq<Item>, maxPages: nat)
  {
    forall u | u in discovered :: u in visited || Link(u) in items || |visited| >= maxPages
  }

  /** Every queued URL is normalized and was discovered. */
  ghost predicate QueuedLinks(items: seq<Item>, discovered: set<string>)
  {
    forall it | it in items && it.Link? :: IsNormalized(it.url) && it.url in discovered
  }

  /** Taking the head off the queue keeps every discovered URL accounted
      for, once the head's URL is visited or the budget is used up. */
  lemma ClosedAfterDequeue(discovered: set<string>, visited: set<string>, visited': set<string>,
                           items: seq<Item>, maxPages: nat)
    requires Closed(discovered, visited, items, maxPages)
    requires items != [] && visited <= visited'
    requires items[0].Link? ==> items[0].url in visited' || |visited'| >= maxPages
    ensures Closed(discovered, visited', items[1..], maxPages)
  {
    forall u | u in discovered
      ensures u in visited' || Link(u) in items[1..] || |visited'| >= maxPages
    {
      if Link(u) in items && Link(u) != items[0] {
        var i :| 0 <= i < |items| && items[i] == Link(u);
        assert items[1..][i - 1] == Link(u);
      }
      assert |visited| <= |visited'| by {
        SubsetCard(visited, visited');
      }
    }
  }


  /** Putting more entries on the queue, and recording the pushed links as
      discovered, keeps every discovered URL accounted for. */
  lemma ClosedAfterPush(discovered: set<string>, visited: set<string>, items: seq<Item>, maxPages: nat,
                        pushed: seq<string>, more: seq<Item>)
    requires Closed(discovered, visited, items, maxPages)
    requires forall u | u in pushed :: Link(u) in more
    ensures Closed(discovered + Elems(pushed), visited, items + more, maxPages)
  {
  }

  lemma QueuedAfterDequeue(items: seq<Item>, discovered: set<string>, discovered': set<string>)
    requires QueuedLinks(items, discovered) && items != [] && discovered <= discovered'
    ensures QueuedLinks(items[1..], discovered')
  {
  }

  lemma QueuedAfterPush(items: seq<Item>, discovered: set<string>, pushed: seq<string>)
    requires QueuedLinks(items, discovered)
    requires forall u | u in pushed :: IsNormalized(u)
    ensures QueuedLinks(items + Links(pushed), discovered + Elems(pushed))
  {
  }

  /** Creating a scraper (scraper/scraper.py:30-59): the start URL is
      normalized, its network location becomes the domain the crawl stays
      on, the search term is lowercased, and the crawl starts with the
      start URL queued and nothing visited or found. */
  method NewScraper(baseUrl: string, searchTerm: string, maxPages: nat, threadCount: nat, snippetRadius: nat,
                    fetch: string -> string, cleanHtml: string -> string,
                    anchors: (string, string) -> seq<string>, canFetch: string -> bool)
    returns (s: DeepSiteScraper)
    ensures fresh(s) && fresh(s.queue) && s.Valid()
    ensures s.baseUrl == NormalizeUrl(baseUrl) && s.domain == Parse(s.baseUrl).netloc
    ensures s.searchTerm == Lower(searchTerm) && s.bannedExtensions == BannedExtensions
    ensures s.maxPages == maxPages && s.threadCount == threadCount
    ensures s.snippetRadius == snippetRadius
    ensures s.fetch == fetch && s.cleanHtml == cleanHtml
    ensures s.anchors == anchors && s.canFetch == canFetch
    ensures s.found == map[] && s.visited == {} && s.running
    ensures s.queue.items == [Link(s.baseUrl)] && s.discovered == {s.baseUrl}
  {
    var normalized := NormalizeUrl(baseUrl);
    s := new DeepSiteScraper(normalized, Parse(normalized).netloc, Lower(searchTerm), maxPages, threadCount,
                             snippetRadius, fetch, cleanHtml, anchors, canFetch);
  }

  class DeepSiteScraper {
    const baseUrl: string
    const domain: string
    const searchTerm: string
    const maxPages: nat
    const threadCount: nat
    const snippetRadius: nat
    const bannedExtensions: set<string>
    /** `_fetch`: the page's HTML, or "" for a non-HTML answer or an error. */
    const fetch: string -> string
    /** `clean_html`. */
    const cleanHtml: string -> string
    /** The `href`s of a page's `<a>` elements, resolved by `urljoin`
        against the page's URL. */
    const anchors: (string, string) -> seq<string>
    /** `_can_fetch`: what robots.txt allows. */
    const canFetch: string -> bool

    const queue: TaskQueue
    var found: map<string, seq<string>>
    var visited: set<string>
    var running: bool
    /** Every URL ever put on the queue. */
    ghost var discovered: set<string>
    /** The URLs in the order they were fetched. */
    ghost var fetchLog: seq<string>

    /** The page at `url` was fetched non-empty and its cleaned text
        contains the term. */
    ghost predicate Matched(url: string)
    {
      fetch(url) != "" && Contains(Lower(cleanHtml(fetch(url))), searchTerm)
    }

    /** What `found` holds for `url`: the snippets of a fetched page whose
        cleaned text contains the term. */
    ghost predicate FoundFor(url: string, snippets: seq<string>)
    {
      && Matched(url)
      && snippets == HtmlUtils.Snippets(cleanHtml(fetch(url)), searchTerm, snippetRadius)
    }

    /** The crawl invariant over explicit values of the shared state:
        `visited` within the page budget, `found` exactly the visited pages
        with a match, every queued URL normalized and discovered, stop
        sentinels only after shutdown, nothing visited that was not
        discovered, every discovered URL visited or queued unless the
        budget is used up, only the start URL and links of visited pages
        discovered, the links of every fetched visited page discovered while
        the budget lasts, and each visited URL fetched exactly once, after
        a page that links to it unless it is the start URL. */
    ghost predicate Invariant(v: set<string>, f: map<string, seq<string>>, q: seq<Item>, r: bool,
                              d: set<string>, log: seq<string>)
    {
      && |v| <= maxPages
      && FoundOnlyMatches(v, f)
      && FoundAllMatches(v, f)
      && QueuedLinks(q, d)
      && (Stop in q ==> !r)
      && baseUrl in d
      && v <= d
      && Closed(d, v, q, maxPages)
      && InScope(v, d)
      && Followed(v, d)
      && LogsVisits(log, v)
      && Chained(log, baseUrl, PageLinks)
    }

    /** `found` holds only visited pages, each with its snippets. */
    ghost predicate FoundOnlyMatches(v: set<string>, f: map<string, seq<string>>)
    {
      f.Keys <= v && forall u | u in f :: FoundFor(u, f[u])
    }

    /** Every visited page with a match is in `found`. */
    ghost predicate FoundAllMatches(v: set<string>, f: map<string, seq<string>>)
    {
      forall u | u in v && Matched(u) :: u in f
    }

    /** The links `_extract_links` gives for the page at `u`. */
    function PageLinks(u: string): set<string>
    {
      AcceptedLinks(anchors(fetch(u), u))
    }

    /** `u` is the start URL or a link of a page in `v`. */
    ghost predicate Reached(v: set<string>, u: string)
    {
      u == baseUrl || exists w | w in v :: u in PageLinks(w)
    }

    /** Only the start URL and links of visited pages are discovered. */
    ghost predicate InScope(v: set<string>, d: set<string>)
    {
      forall u | u in d :: Reached(v, u)
    }

    /** While the page budget is not used up, the links of every visited
        page that was fetched are discovered. */
    ghost predicate Followed(v: set<string>, d: set<string>)
    {
      |v| < maxPages ==> forall u | u in v && fetch(u) != "" :: PageLinks(u) <= d
    }

    /** Visiting `u` and discovering the links it pushed keeps the
        discovered URLs in scope and the links of fetched pages followed:
        the links are pushed exactly when the page is not empty and, with
        `u` counted, the budget is not used up. */
    lemma ReachStep(v: set<string>, d: set<string>, u: string, pushed: seq<string>)
      requires InScope(v, d) && Followed(v, d) && v <= d && u in d
      requires Elems(pushed) == if fetch(u) != "" && |v + {u}| < maxPages
                                then PageLinks(u) - (v + {u})
                                else {}
      ensures InScope(v + {u}, d + Elems(pushed))
      ensures Followed(v + {u}, d + Elems(pushed))
    {
      forall x | x in d + Elems(pushed)
        ensures Reached(v + {u}, x)
      {
        if x in d {
          if x != baseUrl {
            var w :| w in v && x in PageLinks(w);
            assert w in v + {u};
          }
        } else {
          assert u in v + {u} && x in PageLinks(u);
        }
      }
      if |v + {u}| < maxPages {
        assert |v| < maxPages by {
          SubsetCard(v, v + {u});
        }
        forall x | x in v + {u} && fetch(x) != ""
          ensures PageLinks(x) <= d + Elems(pushed)
        {
          if x == u {
            assert Elems(pushed) == PageLinks(u) - (v + {u});
          }
        }
      }
    }

    ghost predicate Valid()
      reads this, queue
    {
      && queue.Valid() && queue.inFlight == 0
      && Invariant(visited, found, queue.items, running, discovered, fetchLog)
    }

    /** Taking a stop sentinel off the queue keeps the invariant. */
    lemma StopStep(v: set<string>, f: map<string, seq<string>>, q: seq<Item>, r: bool,
                   d: set<string>, log: seq<string>)
      requires Invariant(v, f, q, r, d, log) && q != [] && q[0] == Stop
      ensures Invariant(v, f, q[1..], r, d, log)
    {
      ClosedAfterDequeue(d, v, v, q, maxPages);
      QueuedAfterDequeue(q, d, d);
    }

    /** Rejecting the head URL, already visited or over the budget, keeps
        the invariant. */
    lemma RejectStep(v: set<string>, f: map<string, seq<string>>, q: seq<Item>, r: bool,
                     d: set<string>, log: seq<string>)
      requires Invariant(v, f, q, r, d, log) && q != [] && q[0].Link?
      requires q[0].url in v || |v| >= maxPages
      ensures Invariant(v, f, q[1..], r, d, log)
    {
      ClosedAfterDequeue(d, v, v, q, maxPages);
      QueuedAfterDequeue(q, d, d);
    }

    /** `found` after a worker processed `u`: the page's snippets are
        recorded when it was fetched and its cleaned text contains the term. */
    ghost function Recorded(f: map<string, seq<string>>, u: string): map<string, seq<string>>
    {
      if Matched(u)
      then f[u := HtmlUtils.Snippets(cleanHtml(fetch(u)), searchTerm, snippetRadius)]
      else f
    }

    /** Recording a visited page keeps `found` exactly the visited pages
        with a match, each with its snippets. */
    lemma RecordedStep(v: set<string>, f: map<string, seq<string>>, u: string)
      requires FoundOnlyMatches(v, f) && FoundAllMatches(v, f)
      ensures FoundOnlyMatches(v + {u}, Recorded(f, u))
      ensures FoundAllMatches(v + {u}, Recorded(f, u))
    {
    }

    /** Dequeuing the head and queuing extracted links keeps every queued
        URL normalized and discovered. */
    lemma QueuedStep(q: seq<Item>, d: set<string>, u: string, pushed: seq<string>)
      requires QueuedLinks(q, d) && q != []
      requires Elems(pushed) <= AcceptedLinks(anchors(fetch(u), u))
      ensures QueuedLinks(q[1..] + Links(pushed), d + Elems(pushed))
    {
      QueuedAfterDequeue(q, d, d);
      forall x | x in pushed
        ensures IsNormalized(x)
      {
        assert x in Elems(pushed);
        AcceptedLinksSound(anchors(fetch(u), u), x);
      }
      QueuedAfterPush(q[1..], d, pushed);
    }

    /** The head of the queue, when a URL, was discovered. */
    lemma HeadDiscovered(q: seq<Item>, d: set<string>)
      requires QueuedLinks(q, d) && q != [] && q[0].Link?
      ensures q[0].url in d
    {
      assert q[0] in q;
    }

    /** Dequeuing and queuing links brings no stop sentinel. */
    lemma StopsStep(q: seq<Item>, pushed: seq<string>)
      requires q != []
      ensures Stop in q[1..] + Links(pushed) ==> Stop in q
    {
      if Stop in q[1..] + Links(pushed) {
        var i :| 0 <= i < |q[1..] + Links(pushed)| && (q[1..] + Links(pushed))[i] == Stop;
        assert q[i + 1] == Stop;
      }
    }

    /** Claiming and processing the head URL keeps the invariant: it joins
        `visited` and the fetch log, `found` gains it only on a match, and
        the links pushed are extracted ones. */
    lemma VisitStep(v: set<string>, f: map<string, seq<string>>, q: seq<Item>, r: bool,
                    d: set<string>, log: seq<string>, u: string, pushed: seq<string>,
                    v': set<string>, f': map<string, seq<string>>, q': seq<Item>,
                    d': set<string>, log': seq<string>)
      requires Invariant(v, f, q, r, d, log) && q != [] && q[0] == Link(u)
      requires u !in v && |v| < maxPages
      requires Elems(pushed) == if fetch(u) != "" && |v + {u}| < maxPages
                                then PageLinks(u) - (v + {u})
                                else {}
      requires v' == v + {u} && f' == Recorded(f, u) && q' == q[1..] + Links(pushed)
      requires d' == d + Elems(pushed) && log' == log + [u]
      ensures Invariant(v', f', q', r, d', log')
    {
      HeadDiscovered(q, d);
      ClosedAfterDequeue(d, v, v', q, maxPages);
      ClosedAfterPush(d, v', q[1..], maxPages, pushed, Links(pushed));
      QueuedStep(q, d, u, pushed);
      ReachStep(v, d, u, pushed);
      StopsStep(q, pushed);
      RecordedStep(v, f, u);
      LogStep(v, log, u);
      ChainVisit(v, d, log, u);
    }

    /** Fetching a discovered `u`, which is the start URL or a link of a
        visited page, keeps the log chained from the start URL. */
    lemma ChainVisit(v: set<string>, d: set<string>, log: seq<string>, u: string)
      requires InScope(v, d) && u in d
      requires Chained(log, baseUrl, PageLinks) && LogsVisits(log, v)
      ensures Chained(log + [u], baseUrl, PageLinks)
    {
      if u != baseUrl {
        var w :| w in v && u in PageLinks(w);
        assert w in log;
      }
      ChainStep(log, baseUrl, PageLinks, u);
    }

    /** Queuing the stop sentinels after clearing `running` keeps the
        invariant. */
    lemma ShutdownStep(v: set<string>, f: map<string, seq<string>>, q: seq<Item>, r: bool,
                       d: set<string>, log: seq<string>, n: nat)
      requires Invariant(v, f, q, r, d, log)
      ensures Invariant(v, f, q + Stops(n), false, d, log)
    {
      ClosedAfterPush(d, v, q, maxPages, [], Stops(n));
      assert d + Elems([]) == d;
    }

    /** With only stop sentinels queued, every discovered URL was visited
        unless the page budget is used up. */
    lemma DrainedStep(v: set<string>, f: map<string, seq<string>>, r: bool,
                      d: set<string>, log: seq<string>, n: nat)
      requires Invariant(v, f, Stops(n), r, d, log)
      ensures forall u | u in d :: u in v || |v| == maxPages
    {
      forall u | u in d
        ensures u in v || |v| == maxPages
      {
        assert Link(u) !in Stops(n);
      }
    }

    /** The fields of a new scraper, from the normalized start URL, its
        domain and the lowercased search term NewScraper computes. */
    constructor (baseUrl: string, domain: string, searchTerm: string, maxPages: nat, threadCount: nat, snippetRadius: nat,
                 fetch: string -> string, cleanHtml: string -> string,
                 anchors: (string, string) -> seq<string>, canFetch: string -> bool)
      requires IsNormalized(baseUrl)
      ensures Valid() && fresh(queue)
      ensures this.baseUrl == baseUrl && this.domain == domain
      ensures this.searchTerm == searchTerm && this.bannedExtensions == BannedExtensions
      ensures this.maxPages == maxPages && this.threadCount == threadCount
      ensures this.snippetRadius == snippetRadius
      ensures this.fetch == fetch && this.cleanHtml == cleanHtml
      ensures this.anchors == anchors && this.canFetch == canFetch
      ensures found == map[] && visited == {} && running
      ensures queue.items == [Link(this.baseUrl)] && discovered == {this.baseUrl}
    {
      this.baseUrl, this.domain, this.searchTerm := baseUrl, domain, searchTerm;
      this.maxPages, this.threadCount, this.snippetRadius := maxPages, threadCount, snippetRadius;
      this.bannedExtensions := BannedExtensions;
      this.fetch, this.cleanHtml, this.anchors, this.canFetch := fetch, cleanHtml, anchors, canFetch;
      var q := new TaskQueue();
      q.Put(Link(baseUrl));
      this.queue := q;
      found, visited, running := map[], {}, true;
      discovered, fetchLog := {baseUrl}, [];
      new;
      InitialValid();
    }

    /** The fields the constructor sets up satisfy the class invariant. */
    lemma InitialValid()
      requires queue.Valid() && queue.inFlight == 0 && queue.items == [Link(baseUrl)]
      requires IsNormalized(baseUrl) && visited == {} && found == map[] && running
      requires discovered == {baseUrl} && fetchLog == []
      ensures Valid()
    {
      InitialStep();
    }

    /** The state the constructor builds satisfies the invariant. */
    lemma InitialStep()
      requires IsNormalized(baseUrl)
      ensures Invariant({}, map[], [Link(baseUrl)], true, {baseUrl}, [])
    {
      assert forall it | it in [Link(baseUrl)] :: it == Link(baseUrl);
    }

    /** `_exit_gracefully`. */
    method ExitGracefully()
      requires Valid()
      modifies this`running
      ensures Valid() && !running
    {
      running := false;
    }

    /** The filter of `_extract_links` on one resolved anchor: the URL
        without its fragment is kept when it is in scope and robots.txt
        allows it. */
    predicate Accepts(rawUrl: string)
    {
      IsValidUrl(rawUrl, domain, bannedExtensions) && canFetch(rawUrl)
    }

    /** The link `_extract_links` keeps for one resolved anchor: the
        normalized URL without its fragment, when that URL is accepted. */
    function Extract(a: string): (r: Option<string>)
      ensures r.Some? <==> Accepts(CutFragment(a))
      ensures r.Some? ==> IsNormalized(r.value)
    {
      var rawUrl := CutFragment(a);
      if Accepts(rawUrl) then Some(NormalizeUrl(rawUrl)) else None
    }

    /** What `_extract_links` returns for the resolved anchors of a page. */
    function AcceptedLinks(hrefs: seq<string>): set<string>
    {
      Collect(hrefs, Extract)
    }

    /** Every extracted link is normalized, and comes from an anchor whose
        fragment-free URL passes `is_valid_url` and robots.txt. */
    lemma AcceptedLinksSound(hrefs: seq<string>, link: string)
      requires link in AcceptedLinks(hrefs)
      ensures IsNormalized(link)
      ensures exists a | a in hrefs :: && IsValidUrl(CutFragment(a), domain, bannedExtensions)
                                      && canFetch(CutFragment(a))
                                      && link == NormalizeUrl(CutFragment(a))
    {
      CollectIff(hrefs, Extract, link);
      var a :| a in hrefs && Extract(a) == Some(link);
    }

    /** `_extract_links(html, base_url)`. */
    method ExtractLinks(html: string, pageUrl: string) returns (links: set<string>)
      ensures links == AcceptedLinks(anchors(html, pageUrl))
    {
      links := CollectEach(anchors(html, pageUrl), Extract);
    }

    /** The claim section (scraper/scraper.py:150-155): the URL is taken
        when it is new and the page budget is not used up; otherwise the
        task is marked done and nothing else changes. */
    method Claim(currentUrl: string) returns (normalized: string, ok: bool)
      requires queue.Valid() && queue.inFlight == 1
      modifies this`visited, queue
      ensures normalized == NormalizeUrl(currentUrl)
      ensures ok <==> normalized !in old(visited) && |old(visited)| < maxPages
      ensures ok ==> && visited == old(visited) + {normalized}
                     && queue.items == old(queue.items) && queue.unfinished == old(queue.unfinished)
                     && queue.inFlight == 1
      ensures !ok ==> && visited == old(visited)
                      && queue.items == old(queue.items) && queue.unfinished == old(queue.unfinished) - 1
                      && queue.inFlight == 0
      ensures queue.Valid()
    {
      normalized := NormalizeUrl(currentUrl);
      if normalized in visited || |visited| >= maxPages {
        queue.TaskDone();
        ok := false;
        return;
      }
      visited := visited + {normalized};
      ok := true;
    }

    /** Recording a match (scraper/scraper.py:159-164): only when the
        lowered term occurs in the lowered text. */
    method RecordMatch(url: string, text: string)
      modifies this`found
      ensures found == if Contains(Lower(text), searchTerm)
                       then old(found)[url := HtmlUtils.Snippets(text, searchTerm, snippetRadius)]
                       else old(found)
    {
      if Contains(Lower(text), searchTerm) {
        var snippets := HtmlUtils.ExtractTextWithContext(text, searchTerm, snippetRadius);
        found := found[url := snippets];
      }
    }

    /** Enqueuing the links (scraper/scraper.py:171-174): in the set's
        iteration order, every link not yet visited is put on the queue. */
    method EnqueueNew(links: set<string>) returns (pushed: seq<string>)
      requires queue.Valid()
      modifies queue
      ensures queue.Valid() && queue.inFlight == old(queue.inFlight)
      ensures Elems(pushed) == links - visited && Distinct(pushed)
      ensures queue.items == old(queue.items) + Links(pushed)
    {
      pushed := [];
      var rest := links;
      var seen := visited;
      ghost var items0 := queue.items;
      while rest != {}
        invariant queue.Valid() && queue.inFlight == old(queue.inFlight)
        invariant rest <= links
        invariant Elems(pushed) == links - rest - seen && Distinct(pushed)
        invariant queue.items == items0 + Links(pushed)
        decreases |rest|
      {
        var link :| link in rest;
        TakeOne(links, rest, seen, Elems(pushed), link);
        if link !in seen {
          queue.Put(Link(link));
          PushOne(pushed, link);
          assert queue.items == items0 + (Links(pushed) + [Link(link)]);
          pushed := pushed + [link];
        }
        rest := rest - {link};
      }
    }

    /** The rest of a worker pass after a successful claim (scraper/scraper.py:157-174):
        fetch the page; when it is not empty, record a match and, while the
        page budget is not used up, enqueue the links not yet visited. */
    method ProcessPage(url: string) returns (pushed: seq<string>)
      requires queue.Valid()
      modifies this`found, this`discovered, this`fetchLog, queue
      ensures queue.Valid() && queue.inFlight == old(queue.inFlight)
      ensures fetchLog == old(fetchLog) + [url]
      ensures found == Recorded(old(found), url)
      ensures Elems(pushed) == if fetch(url) != "" && |visited| < maxPages
                               then AcceptedLinks(anchors(fetch(url), url)) - visited
                               else {}
      ensures Distinct(pushed)
      ensures queue.items == old(queue.items) + Links(pushed)
      ensures discovered == old(discovered) + Elems(pushed)
    {
      var html := fetch(url);
      fetchLog := fetchLog + [url];
      pushed := [];
      if html != "" {
        var text := cleanHtml(html);
        RecordMatch(url, text);
        if |visited| < maxPages {
          var newLinks := ExtractLinks(html, url);
          pushed := EnqueueNew(newLinks);
          discovered := discovered + Elems(pushed);
        }
      }
    }

    /** A claimed `url` is processed, then its task is marked done; the
        crawl's flag and visited set stay as they are. */
    method CompletePage(url: string) returns (pushed: seq<string>)
      requires queue.Valid() && queue.inFlight == 1
      modifies this`found, this`discovered, this`fetchLog, queue
      ensures queue.Valid() && queue.inFlight == 0
      ensures running == old(running) && visited == old(visited)
      ensures fetchLog == old(fetchLog) + [url]
      ensures found == Recorded(old(found), url)
      ensures Elems(pushed) == if fetch(url) != "" && |visited| < maxPages
                               then PageLinks(url) - visited
                               else {}
      ensures Distinct(pushed)
      ensures queue.items == old(queue.items) + Links(pushed)
      ensures discovered == old(discovered) + Elems(pushed)
    {
      pushed := ProcessPage(url);
      queue.TaskDone();
    }

    /** The rest of a worker pass after `url`, taken from the head of `q`,
        was claimed: process the page, then mark its task done. */
    method FinishVisit(ghost q: seq<Item>, ghost v: set<string>, url: string) returns (pushed: seq<string>)
      requires queue.Valid() && queue.inFlight == 1
      requires q != [] && q[0] == Link(url) && queue.items == q[1..]
      requires Invariant(v, found, q, running, discovered, fetchLog)
      requires url !in v && |v| < maxPages && visited == v + {url}
      modifies this`found, this`discovered, this`fetchLog, queue
      ensures Valid()
      ensures fetchLog == old(fetchLog) + [url]
      ensures found == Recorded(old(found), url)
      ensures Elems(pushed) == if fetch(url) != "" && |visited| < maxPages
                               then AcceptedLinks(anchors(fetch(url), url)) - visited
                               else {}
      ensures Distinct(pushed)
      ensures queue.items == old(queue.items) + Links(pushed)
      ensures discovered == old(discovered) + Elems(pushed)
    {
      ghost var f, d, log := found, discovered, fetchLog;
      pushed := CompletePage(url);
      VisitStep(v, f, q, running, d, log, url, pushed, visited, found, queue.items, discovered, fetchLog);
    }

    /** The handling of a dequeued URL (scraper/scraper.py:150-174): claim
        it, or mark its task done when it is already visited or the page
        budget is used up; a claimed page is processed and its task marked
        done after the links are enqueued. */
    method Visit(ghost q: seq<Item>, url: string) returns (ok: bool, pushed: seq<string>)
      requires queue.Valid() && queue.inFlight == 1
      requires q != [] && q[0] == Link(url) && queue.items == q[1..]
      requires Invariant(visited, found, q, running, discovered, fetchLog)
      modifies this`visited, this`found, this`discovered, this`fetchLog, queue
      ensures Valid()
      ensures ok <==> url !in old(visited) && |old(visited)| < maxPages
      ensures ok ==> && visited == old(visited) + {url}
                     && fetchLog == old(fetchLog) + [url]
                     && found == Recorded(old(found), url)
                     && Elems(pushed) == (if fetch(url) != "" && |visited| < maxPages
                                          then AcceptedLinks(anchors(fetch(url), url)) - visited
                                          else {})
                     && Distinct(pushed)
                     && queue.items == old(queue.items) + Links(pushed)
                     && discovered == old(discovered) + Elems(pushed)
      ensures !ok ==> && visited == old(visited) && found == old(found) && pushed == []
                      && fetchLog == old(fetchLog) && discovered == old(discovered)
                      && queue.items == old(queue.items)
    {
      ghost var v := visited;
      assert q[0] in q;
      NormalizedIsFixedPoint(url);
      var normalized;
      normalized, ok := Claim(url);
      if !ok {
        RejectStep(v, found, q, running, discovered, fetchLog);
        return ok, [];
      }
      pushed := FinishVisit(q, v, url);
    }

    /** One pass of the `_worker` loop body (scraper/scraper.py:141-175).
        `exit` is the `break`: the queue was empty (no `task_done`) or held
        the stop sentinel (one `task_done`). Otherwise the head URL was
        claimed and processed, or rejected; either way its task is done
        exactly once, as the restored count of unfinished tasks shows. */
    method WorkerIteration() returns (exit: bool, claimed: Option<string>, pushed: seq<string>)
      requires Valid()
      modifies this`visited, this`found, this`discovered, this`fetchLog, queue
      ensures Valid()
      ensures exit ==> && claimed == None && visited == old(visited) && found == old(found)
                       && (|| (old(queue.items) == [] && queue.items == [])
                           || (old(queue.items) != [] && old(queue.items)[0] == Stop
                               && Stop in old(queue.items) && queue.items == old(queue.items)[1..]))
      ensures !exit ==> old(queue.items) != [] && old(queue.items)[0].Link?
      ensures claimed.None? ==> visited == old(visited) && found == old(found)
      ensures claimed.None? && !exit ==> queue.items == old(queue.items)[1..]
      ensures claimed.Some? ==> && claimed.value == old(queue.items)[0].url
                                && claimed.value !in old(visited) && |old(visited)| < maxPages
                                && visited == old(visited) + {claimed.value}
                                && fetchLog == old(fetchLog) + [claimed.value]
                                && found == Recorded(old(found), claimed.value)
                                && Elems(pushed) == (if fetch(claimed.value) != "" && |visited| < maxPages
                                                     then AcceptedLinks(anchors(fetch(claimed.value), claimed.value)) - visited
                                                     else {})
                                && Distinct(pushed)
                                && queue.items == old(queue.items)[1..] + Links(pushed)
                                && discovered == old(discovered) + Elems(pushed)
      ensures claimed.None? ==> pushed == [] && fetchLog == old(fetchLog) && discovered == old(discovered)
    {
      ghost var q := queue.items;
      var item := queue.Get();
      if item.None? {
        return true, None, [];
      }
      if item.value.Stop? {
        assert q[0] in q;
        queue.TaskDone();
        StopStep(visited, found, q, running, discovered, fetchLog);
        return true, None, [];
      }
      var url := item.value.url;
      var ok;
      ok, pushed := Visit(q, url);
      exit := false;
      claimed := if ok then Some(url) else None;
    }

    /** `_worker` (scraper/scraper.py:136-175), run while no other worker
        touches the shared state. A worker that starts while `running`
        holds leaves the queue empty. */
    method Worker()
      requires Valid()
      modifies this`visited, this`found, this`discovered, this`fetchLog, queue
      ensures Valid()
      ensures old(running) ==> queue.items == []
      ensures old(visited) <= visited
    {
      while running
        invariant Valid()
        invariant old(visited) <= visited
        decreases maxPages - |visited|, |queue.items|
      {
        ghost var before := queue.items;
        assert Stop !in before;
        var exit, claimed, pushed := WorkerIteration();
        if exit {
          break;
        }
      }
    }

    /** The `finally` block of `crawl` (scraper/scraper.py:192-194): stop
        the workers' loops, then queue one stop sentinel per worker. */
    method Shutdown()
      requires Valid()
      modifies this`running, queue
      ensures Valid() && !running
      ensures queue.items == old(queue.items) + Stops(threadCount)
    {
      ShutdownStep(visited, found, queue.items, running, discovered, fetchLog, threadCount);
      running := false;
      for i := 0 to threadCount
        invariant !running
        invariant queue.Valid() && queue.inFlight == 0
        invariant queue.items == old(queue.items) + Stops(i)
      {
        queue.Put(Stop);
        assert Stops(i) + [Stop] == Stops(i + 1);
      }
    }

    /** `crawl` (scraper/scraper.py:177-196) under one schedule of its
        threads: the first worker does all the work, the others find the
        queue empty and time out, `queue.join()` returns because no task is
        unfinished, and the shutdown leaves one sentinel per worker. At the
        end no discovered URL is left unvisited unless the page budget ran
        out. */
    method Crawl()
      requires Valid() && running && threadCount > 0
      modifies this`running, this`visited, this`found, this`discovered, this`fetchLog, queue
      ensures Valid() && !running
      ensures |visited| <= maxPages && found.Keys <= visited
      ensures forall u | u in found :: FoundFor(u, found[u])
      ensures forall u :: u in found <==> u in visited && Matched(u)
      ensures queue.items == Stops(threadCount) && queue.unfinished == threadCount
      ensures forall u | u in discovered :: u in visited || |visited| == maxPages
      ensures baseUrl in visited || |visited| == maxPages
      ensures |visited| < maxPages ==> forall u | u in visited && fetch(u) != "" :: PageLinks(u) <= visited
      ensures forall u | u in visited :: exists path :: PathTo(path, u, baseUrl, PageLinks, visited)
    {
      Worker();
      for t := 1 to threadCount
        invariant Valid() && running && queue.items == []
      {
        Worker();
      }
      assert queue.unfinished == 0;
      Shutdown();
      assert queue.items == Stops(threadCount);
      DrainedStep(visited, found, running, discovered, fetchLog, threadCount);
      ChainedReach(fetchLog, visited, baseUrl, PageLinks);
    }
  }
}
