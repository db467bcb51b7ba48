# Deep website scraper: a Dafny model

This project models the core of a crawler that searches one website for a
term. Starting from a URL, it visits the pages of the same host, records
every page whose text contains the term, and follows the page's links. The
model covers:

- `normalize_url` and `is_valid_url` from utils/url_utils.py
  (`url_utils.dfy`, module `UrlUtils`). They rest on a model of
  `urlsplit`/`urlparse` that splits a URL into scheme, network location,
  path, parameters, query and fragment, the way section 3 of RFC 3986
  splits a URI.
- `extract_text_with_context` from utils/html_utils.py
  (`html_utils.dfy`, module `HtmlUtils`): the left-to-right,
  non-overlapping scan of `re.finditer`, the window around each match, and
  the ANSI highlighting of `re.sub`.
- The threaded `DeepSiteScraper` of scraper/scraper.py (`crawler.dfy`,
  module `Crawler`):
  - the shared state is a class: `visited`, `found`, `running` and a
    `TaskQueue` with its count of unfinished tasks;
  - each lock-guarded section of `_worker` is one method;
  - `crawl` runs under one schedule: the first worker drains the queue,
    `join` returns, and the `finally` block stops everyone.
- The earlier single-threaded `DeepSiteScraper` of DeepWebsiteScraper.py
  (`simple_crawler.dfy`, module `SimpleCrawler`): its `crawl` loop, link
  filter and `_is_valid_url`.

The two crawlers share `link_utils.dfy` (module `LinkUtils`): the banned
extensions, cutting the fragment off a URL, and the loop that gathers a
page's accepted links into a set. `strings.dfy` (module `Strings`) holds the
`str` operations the code uses: ASCII `lower`, `startswith`, `endswith`,
`rstrip`, `in` and `find`.

The network, robots.txt, BeautifulSoup and `urljoin` are oracles fixed when a
scraper is built:
- `fetch` is the page's HTML, or "" for a non-HTML answer or an error;
- `cleanHtml` and `pageText` are the text of a page;
- `anchors` gives a page's resolved `href`s;
- `canFetch` is what robots.txt allows.

A ghost `fetchLog` records the pages in the order they were fetched. This
lets the invariants say that every visited URL is fetched exactly once.

Where the code and its documentation disagree, the model follows the code:
- With an empty search term, `re.finditer` reports a zero-width match at
  every index, so `extract_text_with_context` returns one snippet per
  index, not an empty list (`HtmlUtils.EmptyTermMatches`).
- `re.sub` highlights every occurrence inside a window, not just the match
  the window was cut around (`HtmlUtils.SnippetContents`,
  `HtmlUtils.HighlightTermCovers`).

`urllib.parse` is modelled as CPython 3.13 behaves. Its `urlunsplit` keeps
the "//" in front of a path that starts with "//" even when the network
location is empty, and its `urlsplit` takes any valid scheme before the
first ':', with no exception for a port made of digits.

## Model

| member | source | states |
|---|---|---|
| Strings.LowerIdempotent | utils/html_utils.py:21 | lowercasing twice is lowercasing once |
| Strings.LowerKeeps | utils/html_utils.py:21 | lowercasing keeps every non-letter character: it occurs in the result exactly when it occurs in the input |
| Strings.RStrip | utils/url_utils.py:14 | `rstrip('/')` returns a prefix of the input, not ending in '/', followed in the input only by '/' characters |
| UrlUtils.Split | utils/url_utils.py:11 | `urlsplit` gives a lowercase scheme, a network location without '/', '?' or '#', and a path without '?' or '#' |
| UrlUtils.Parse | utils/url_utils.py:24 | `urlparse` gives the same scheme and network location as `urlsplit` |
| UrlUtils.SplitParams | utils/url_utils.py:11 | `_splitparams` cuts nothing exactly when the path has a '/' and no ';' after the last one; otherwise it splits the path at a ';' into the kept part and parameters that hold no '/', and the kept part holds no ';' after the last '/', so the cut is at the first ';' after the last '/' (the first ';' when there is no '/') |
| UrlUtils.SplitParamsDetermined | utils/url_utils.py:11 | any split at a ';' with no '/' in the parameters and no ';' in the kept part after the last '/' is the one `_splitparams` makes, so its contract fixes the result |
| UrlUtils.Prefixed | utils/url_utils.py:8-9 | after the prefix step the URL starts with "http://" or "https://" |
| UrlUtils.CanonicalPath | utils/url_utils.py:14-16 | the path loses only trailing '/' characters and becomes "/" when nothing is left, which happens only for a path made of '/' characters; a path that started with '/' (or was empty) ends up canonical |
| UrlUtils.NormalizeUrl | utils/url_utils.py:3-18 | the corrected normalization, which takes the path from `urlsplit` (keeping `;params`): the result is normalized and splits back into the scheme of the prefix, the lowercased network location and the canonical path, with no query or fragment |
| UrlUtils.NormalizedShape | utils/url_utils.py:12-17 | `urlunparse` of an http or https scheme, a lowercased network location and a canonical path gives a normalized URL that splits back into exactly those components, with no query or fragment |
| UrlUtils.NormalizeUrlAsWritten | utils/url_utils.py:3-18 | the normalization as written, with the path from `urlparse`: the result has the same normalized form, with the scheme of the prefix, the lowercased network location, the canonical `urlparse` path and no query or fragment |
| UrlUtils.NormalizedIsFixedPoint | utils/url_utils.py:3-18 | normalizing a normalized URL gives it back unchanged |
| UrlUtils.NormalizeUrlFixedPoints | utils/url_utils.py:3-18 | a URL is unchanged by normalization if and only if it is normalized |
| UrlUtils.NormalizeUrlIdempotent | utils/url_utils.py:3-18 | normalizing twice equals normalizing once |
| UrlUtils.AsWrittenNotIdempotent | utils/url_utils.py:11-17 | with the path taken from `urlparse`, "https://h/s;p/" normalizes to "https://h/s;p", which normalizes again to "https://h/s", for every lowercase host h without '/', '?' or '#', segment s without '/', ';', '?' or '#', and parameters p without '/', '?' or '#' |
| UrlUtils.IsValidUrl | utils/url_utils.py:20-35 | a URL is valid if and only if its network location is the base domain, its scheme is http or https, and its lowercased path ends in no banned extension |
| UrlUtils.NormalizeKeepsHost | utils/url_utils.py:20-35 | a URL that passes `is_valid_url` and starts with "http://" or "https://" normalizes to a URL whose host is the base domain, lowercased |
| HtmlUtils.MatchesFrom | utils/html_utils.py:25 | every position `re.finditer` reports is an occurrence of the lowered term; positions increase and matches do not overlap |
| HtmlUtils.MatchesComplete | utils/html_utils.py:25 | every occurrence of the term lies inside one of the reported matches, so none is skipped |
| HtmlUtils.MatchesEmptyIff | utils/html_utils.py:25 | there are no matches exactly when the term does not occur |
| HtmlUtils.EmptyTermMatches | utils/html_utils.py:25 | the empty term gives one match per index of the text, the end included |
| HtmlUtils.Window | utils/html_utils.py:26-27 | the window contains the match, lies within the text, is at most the match plus twice the radius long; it starts at 0 exactly when the match starts within the radius, and otherwise exactly the radius before the match; it ends at the text's end exactly when that is within the radius after the match, and otherwise exactly the radius after it |
| HtmlUtils.HighlightTerm | utils/html_utils.py:30-35 | highlighting lengthens the window by the 9 marker characters of each match |
| HtmlUtils.WrapLength | utils/html_utils.py:30-35 | each wrapped region adds exactly its 9 marker characters |
| HtmlUtils.WrapAt | utils/html_utils.py:30-35 | the `k`th region of a wrapped string sits after the text before it and the `k` marker pairs before it, between a highlight and a reset, with its own characters kept |
| HtmlUtils.HighlightTermAt | utils/html_utils.py:30-35 | the `k`th match is the term up to case, and in the highlighted window it sits at its own position plus 9·k, between a highlight and a reset, with the window's own characters |
| HtmlUtils.HighlightTermCovers | utils/html_utils.py:30-35 | no occurrence of the term in a window is left unmarked: each lies inside a match that is wrapped in the markers at its shifted position |
| HtmlUtils.StripWrap | utils/html_utils.py:30-35 | removing the highlight markers from a highlighted window gives the window back, and there is one highlight per match in it |
| HtmlUtils.Snippets | utils/html_utils.py:20-37 | there is one snippet per match of the lowered term in the lowered text |
| HtmlUtils.ExtractTextWithContext | utils/html_utils.py:15-37 | the loop appends, in order, one highlighted window per match: the result is exactly the specified snippets |
| HtmlUtils.SnippetsEmptyIff | utils/html_utils.py:15-37 | there are no snippets exactly when the term does not occur in the text, ignoring case |
| HtmlUtils.SnippetContents | utils/html_utils.py:26-35 | without its markers a snippet is exactly the slice of the original text around the match, case kept; it has one highlight per match of the term in that slice, so at least one, and the match it was cut around lies inside one of those matches |
| LinkUtils.CutFragment | scraper/scraper.py:130 | `split('#')[0]` gives the prefix before the first '#': it holds no '#' and is the whole URL when there is no '#' |
| LinkUtils.CollectEach | scraper/scraper.py:128-134 | the loop over the anchors yields exactly the set of links the per-anchor filter keeps |
| LinkUtils.CollectIff | scraper/scraper.py:128-134 | a link is in that set if and only if some anchor yields it |
| LinkUtils.ChainStep | scraper/scraper.py:157-158 | appending to the fetch log the start URL, or a link of a page already fetched, keeps every logged page the start URL or a link of a page logged before it |
| LinkUtils.ChainedPath | scraper/scraper.py:27 | in such a chained log, each logged page is reached from the start URL by a path of links through logged pages |
| LinkUtils.ChainedReach | scraper/scraper.py:27 | with a chained log that lists the visited set, every visited page is reached from the start URL by a path of links through visited pages |
| LinkUtils.LogStep | scraper/scraper.py:155-158 | visiting a URL not yet visited and fetching it keeps the fetch log a duplicate-free listing of the visited set |
| Crawler.TaskQueue.constructor | scraper/scraper.py:42 | a new queue is empty with no unfinished task |
| Crawler.TaskQueue.Put | scraper/scraper.py:174 | `put` appends the item and counts one more unfinished task |
| Crawler.TaskQueue.Get | scraper/scraper.py:141-144 | an empty queue gives nothing and changes nothing (the timeout); otherwise the head is taken and becomes a task in progress |
| Crawler.TaskQueue.TaskDone | scraper/scraper.py:153 | `task_done` counts one unfinished task less and leaves the items alone |
| Crawler.NewScraper | scraper/scraper.py:30-59 | a new scraper has the normalized start URL, its host as domain, the lowercased term, the start URL as the only queued item, nothing visited or found, and `running` set; the invariant holds |
| Crawler.DeepSiteScraper.constructor | scraper/scraper.py:36-50 | stores the configuration and queues the start URL; the invariant holds |
| Crawler.DeepSiteScraper.InitialStep | scraper/scraper.py:36-44 | the starting state (start URL queued, nothing visited or found) satisfies the crawl invariant |
| Crawler.DeepSiteScraper.ExitGracefully | scraper/scraper.py:88-93 | the signal handler clears `running` and keeps the invariant |
| Crawler.DeepSiteScraper.Extract | scraper/scraper.py:130-133 | an anchor yields a link exactly when its fragment-free URL passes `is_valid_url` and robots.txt; the link is normalized |
| Crawler.DeepSiteScraper.AcceptedLinksSound | scraper/scraper.py:128-134 | every extracted link is normalized and is the normalization of some anchor's fragment-free URL that passes `is_valid_url` and robots.txt |
| Crawler.DeepSiteScraper.ExtractLinks | scraper/scraper.py:123-134 | `_extract_links` returns exactly the accepted links of the page's anchors |
| Crawler.DeepSiteScraper.Claim | scraper/scraper.py:150-155 | the URL is claimed if and only if its normalization is unvisited and the budget is not used up; a claim adds it to `visited`, a refusal marks its queue task done and changes nothing else |
| Crawler.DeepSiteScraper.RecordMatch | scraper/scraper.py:159-164 | `found` gets the page's snippets exactly when the lowered text contains the term, and is otherwise unchanged |
| Crawler.DeepSiteScraper.EnqueueNew | scraper/scraper.py:171-174 | the links pushed are exactly the new links not yet visited, each once, appended to the queue |
| Crawler.DeepSiteScraper.ProcessPage | scraper/scraper.py:157-174 | the page is fetched once; `found` records it exactly on a match; an empty page or a used-up budget queues nothing, otherwise exactly its unvisited accepted links are queued |
| Crawler.DeepSiteScraper.RejectStep | scraper/scraper.py:152-154 | dropping a head URL that is visited, or over the budget, keeps the crawl invariant |
| Crawler.DeepSiteScraper.StopStep | scraper/scraper.py:146-148 | taking a stop sentinel keeps the crawl invariant |
| Crawler.DeepSiteScraper.RecordedStep | scraper/scraper.py:159-164 | recording a visited page keeps `found` exactly the visited pages that were fetched and match, each entry holding its snippets |
| Crawler.DeepSiteScraper.QueuedStep | scraper/scraper.py:169-174 | after a visit every queued URL is still normalized and discovered |
| Crawler.DeepSiteScraper.ReachStep | scraper/scraper.py:166-174 | after a visit whose links are pushed exactly when the page is not empty and the budget, counting the page, is not used up, every discovered URL is still the start URL or a link of a visited page, and while the budget lasts the links of every fetched visited page are discovered |
| Crawler.DeepSiteScraper.CompletePage | scraper/scraper.py:157-175 | a claimed page is fetched once, `found` records it exactly on a match, exactly its unvisited accepted links are queued (none for an empty page or a used-up budget), each once, and are discovered; its task is then marked done and the flag and `visited` are untouched |
| Crawler.DeepSiteScraper.ChainVisit | scraper/scraper.py:150-158 | fetching a discovered URL, which is the start URL or a link of a visited page, keeps the fetch log chained from the start URL |
| Crawler.DeepSiteScraper.FinishVisit | scraper/scraper.py:157-175 | after a claim, the page is fetched once, `found` records it exactly on a match, exactly its unvisited accepted links are queued (none for an empty page or a used-up budget), each once, and are discovered; the task is done and the invariant holds |
| Crawler.DeepSiteScraper.VisitStep | scraper/scraper.py:150-175 | claiming and processing the head URL keeps the crawl invariant: budget, `found` exactly for visited matches, discovered URLs only the start URL and links of visited pages, links of fetched pages discovered while the budget lasts, normalized queue, every discovered URL visited or queued, each visit fetched once and after a page linking to it unless it is the start URL |
| Crawler.DeepSiteScraper.Visit | scraper/scraper.py:150-175 | a dequeued URL is visited if and only if it is new and the budget allows; a visited one is fetched once, recorded in `found` exactly on a match, and its unvisited accepted links are queued and discovered; a rejected one leaves `visited`, `found`, the fetch log and the queue alone; either way its queue task is done and the invariant holds |
| Crawler.DeepSiteScraper.WorkerIteration | scraper/scraper.py:141-175 | one pass exits on an empty queue (no `task_done`) or a stop sentinel, or handles the head URL: a claimed URL is fetched once, recorded exactly on a match, and the queue becomes its tail followed by the URL's unvisited accepted links; a rejected one only leaves the queue; every item taken is marked done exactly once and the invariant holds |
| Crawler.DeepSiteScraper.Worker | scraper/scraper.py:136-175 | a worker that starts while `running` holds ends with the queue drained; `visited` only grows |
| Crawler.DeepSiteScraper.ShutdownStep | scraper/scraper.py:192-194 | clearing `running` and queuing the stop sentinels keeps the crawl invariant |
| Crawler.DeepSiteScraper.Shutdown | scraper/scraper.py:191-194 | `running` is cleared and one stop sentinel per worker is appended |
| Crawler.DeepSiteScraper.DrainedStep | scraper/scraper.py:188 | when only stop sentinels are queued, every discovered URL was visited unless the budget is used up |
| Crawler.DeepSiteScraper.Crawl | scraper/scraper.py:177-196 | the crawl ends with `running` cleared, at most `max_pages` pages visited, `found` exactly the visited pages that were fetched and match, each with its snippets, one stop sentinel per worker left, and every discovered URL, the start URL included, visited unless the budget ran out; every visited URL is reached from the start URL by a path of accepted links through visited pages, and when the budget did not run out every accepted link of every fetched visited page was visited |
| SimpleCrawler.DeepSiteScraper.IsValid | DeepWebsiteScraper.py:35-41 | `_is_valid_url` (host equals the domain, lowercased path ends in no banned extension, scheme http or https) makes the same test as `is_valid_url` |
| SimpleCrawler.DeepSiteScraper.CheckContent | DeepWebsiteScraper.py:59-67 | a page matches exactly when a left-to-right scan of its lowered text finds the term |
| SimpleCrawler.DeepSiteScraper.KeptLinksIff | DeepWebsiteScraper.py:69-78 | a link is extracted if and only if it is valid and is some anchor cut at its fragment; no extracted link holds a fragment |
| SimpleCrawler.DeepSiteScraper.ExtractLinks | DeepWebsiteScraper.py:69-78 | `_extract_links` returns exactly the kept links of the page's anchors |
| SimpleCrawler.DeepSiteScraper.constructor | DeepWebsiteScraper.py:9-26 | a new scraper keeps the start URL as given, takes its host as domain, lowercases the term, has a budget of 500 pages, queues the start URL, and has nothing visited or found |
| SimpleCrawler.DeepSiteScraper.ExitGracefully | DeepWebsiteScraper.py:30-33 | the signal handler clears `running` |
| SimpleCrawler.DeepSiteScraper.SkipStep | DeepWebsiteScraper.py:84-87 | dropping a visited head URL keeps the loop invariant |
| SimpleCrawler.DeepSiteScraper.VisitStep | DeepWebsiteScraper.py:89-104 | visiting a new head URL keeps the loop invariant: budget, `found` exactly the visited pages that were fetched and match, the start URL visited or queued, every queued URL the start URL or a kept link of a visited page, the kept links of fetched visited pages visited or queued, each visit fetched once and after a page linking to it unless it is the start URL, only the start URL and valid fragment-free links queued |
| SimpleCrawler.DeepSiteScraper.QueueReachStep | DeepWebsiteScraper.py:86-104 | after visiting the head, every queued URL stays queueable and is the start URL or a kept link of a visited page |
| SimpleCrawler.DeepSiteScraper.ChainVisit | DeepWebsiteScraper.py:84-92 | visiting the head URL, which is the start URL or a kept link of a visited page, keeps the fetch log chained from the start URL |
| SimpleCrawler.DeepSiteScraper.FollowStep | DeepWebsiteScraper.py:89-104 | after visiting the head and queuing its unvisited links (none for an empty page), the kept links of every fetched visited page are visited or queued |
| SimpleCrawler.DeepSiteScraper.ReachedGrows | DeepWebsiteScraper.py:89 | a URL reached from the visited pages stays reached when more pages are visited |
| SimpleCrawler.DeepSiteScraper.EnqueueNew | DeepWebsiteScraper.py:102-104 | the links pushed are exactly the new links not yet visited, each once, appended to the queue |
| SimpleCrawler.DeepSiteScraper.VisitNew | DeepWebsiteScraper.py:89-104 | a URL not yet visited joins `visited` and is fetched once, is found exactly when the page is non-empty and matches, and exactly its kept links not yet visited are queued, each once (none for an empty page) |
| SimpleCrawler.DeepSiteScraper.Step | DeepWebsiteScraper.py:84-104 | a visited head URL is dropped with no other change; a new one joins `visited` and is fetched once, is found exactly when the page is non-empty and matches, and its unvisited links are queued (none for an empty page); the loop invariant, with its reachability and closure parts, holds afterwards |
| SimpleCrawler.DeepSiteScraper.Finished | DeepWebsiteScraper.py:83-104 | once the loop stops with the invariant, `found` is exactly the visited pages that were fetched and match, every visited page is reached from the start URL by a path of kept links through visited pages, and if `running` still holds and the budget is not used up, the start URL and every kept link of every fetched visited page were visited |
| SimpleCrawler.DeepSiteScraper.Crawl | DeepWebsiteScraper.py:80-104 | the loop ends, because each pass visits a new URL within the budget or drops a queued one; on exit `running` is clear, the queue is empty or the budget is reached, the invariant holds, and `found` is exactly the visited pages that were fetched and match; every visited URL is reached from the start URL by a path of kept links through visited pages; and when `running` holds and the budget is not reached, the start URL and every kept link of every fetched visited page were visited |

## Left out

- HTTP: `_fetch`, the session, its retry adapter, the rate-limiting sleep, the timeout and the content-type and status checks are network I/O. `fetch` is an oracle returning the HTML or "".
- robots.txt: loading the file and `can_fetch` are network I/O plus `urllib.robotparser`. `canFetch` is an oracle predicate.
- BeautifulSoup: `clean_html`, the text `_check_content` reads, and the anchor enumeration are a foreign library. They are oracles (`cleanHtml`, `pageText`, `anchors`).
- `urljoin` is not modelled: the anchors arrive already resolved.
- `urlsplit` validation is not modelled: whitespace and control-character stripping, IPv6 brackets and port checks are left out. Scheme detection, network location, path, query, fragment and `;params` are modelled.
- Uppercase schemes are modelled as the code behaves, with no claim about them. A link such as "HTTP://host/x" passes `is_valid_url`, because `urlparse` lowercases the scheme. `normalize_url` then prefixes it with "https://", because its prefix test is case-sensitive, so the host becomes "http:".
- UrlUtils.NormalizeKeepsHost: requires a lowercase "http://" or "https://" prefix, because of the uppercase-scheme behaviour above.
- Unicode: `str.lower`, `re.IGNORECASE` and `_check_content`'s `lower` are ASCII case folding. Full Unicode lowering can change a string's length, which the code does not expect either.
- Regular expressions appear only as escaped literals, so they are modelled as substring search.
- The threaded crawler uses the corrected UrlUtils.NormalizeUrl. The code as written re-normalizes every dequeued link with the `urlparse` path, so it would claim and fetch "https://x/a" for a queued "https://x/a;b"; the model does not show that behaviour.
- Concurrency is not modelled. This covers worker threads, interleavings, `Queue.get`'s blocking timeout, `queue.join` and `t.join`.
  - Each lock-guarded section is one atomic step.
  - The unlocked read of `len(self.visited)` at scraper/scraper.py:169 is read in the same step as the rest of the page's processing.
  - Crawl follows one schedule: one worker drains the queue and the others find it empty.
- Crawler.DeepSiteScraper.Crawl: requires at least one worker. With none, `queue.join()` waits forever on the queued start URL.
- The `KeyboardInterrupt` branch of `crawl` and SIGINT delivery are not modelled. `ExitGracefully` is modelled on its own but never runs in the middle of a crawl.
- `sys.exit` in the single-threaded crawler's handler is not modelled, because it is process control.
- Crawler.DeepSiteScraper.constructor: requires a normalized start URL. Crawler.NewScraper models `__init__` and does the normalization before calling it.
- HtmlUtils.SnippetContents: requires a text without the ESC character, because a text that already holds ANSI codes cannot be told apart from the highlighting once the markers are removed.
- HtmlUtils.ExtractTextWithContext: the radius is a natural number. With a negative radius r, Python's window starts at p+|r| and ends at p+n−|r| for a match at p of length n, so it shrinks to a part of the match or to nothing: "hello fox world" with the term "fox" and radius −1 gives "o". Only when p+n < |r| does the end index turn negative and count from the end of the text.
- The page budget `max_pages` is a natural number.
- Logging, printing, `_print_results`, the `__main__` prompts, main.py and the GUI (gui/) are console or Qt I/O.
- `timeout`, `request_delay` and the User-Agent header only configure the network.

## Findings

| source | as written | input that shows it | evidently intended | confidence | as-written member | corrected member |
|---|---|---|---|---|---|---|
| utils/url_utils.py:11-17 | the path comes from `urlparse`, which cuts `;params` off the last segment before the trailing '/' is stripped, so a second pass can cut more | "https://x/a;b/" normalizes to "https://x/a;b", and that normalizes to "https://x/a" | normalization is idempotent, so the worker's second `normalize_url` of an extracted link leaves it alone; the model takes the path from `urlsplit` | high, not executed | UrlUtils.AsWrittenNotIdempotent | UrlUtils.NormalizeUrlIdempotent |
