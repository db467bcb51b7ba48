/** Pieces both crawlers share: an optional value, the banned asset
    extensions, cutting the fragment off a URL, and gathering the links a
    page yields, anchor by anchor, into a set. */
module LinkUtils {
  import opened Strings

  /** A value that may be missing (Python's `None`). */
  datatype Option<T> = None | Some(value: T)

  /** The asset extensions neither crawler follows. */
  const BannedExtensions: set<string> :=
    {".png", ".jpg", ".jpeg", ".gif", ".pdf", ".doc", ".docx",
     ".xls", ".xlsx", ".ppt", ".pptx", ".mp3", ".mp4", ".zip",
     ".tar", ".gz", ".exe", ".svg", ".css", ".js", ".ico", ".webp"}

  /** `url.split('#')[0]`: everything before the first '#'. */
  function CutFragment(url: string): (r: string)
    ensures '#' !in r
    ensures |r| <= |url| && r == url[..|r|]
    ensures '#' !in url ==> r == url
    ensures |r| < |url| ==> url[|r|] == '#'
  {
    url[..FindFrom(url, {'#'}, 0)]
  }

  /** The elements of a sequence. */
  function Elems(s: seq<string>): set<string>
  {
    set x | x in s
  }

  /** No element occurs twice. */
  predicate Distinct(s: seq<string>)
  {
    forall i, j | 0 <= i < j < |s| :: s[i] != s[j]
  }

  /** Appending a new element keeps the elements distinct and adds it to
      the set of elements. */
  lemma AppendFresh(s: seq<string>, x: string)
    requires Distinct(s) && x !in Elems(s)
    ensures Distinct(s + [x])
    ensures Elems(s + [x]) == Elems(s) + {x}
  {
    assert x !in s;
  }

  /** No URL is logged twice, and the log holds exactly `visited`. */
  ghost predicate LogsVisits(log: seq<string>, visited: set<string>)
  {
    && (forall i, j | 0 <= i < j < |log| :: log[i] != log[j])
    && (forall u :: u in log <==> u in visited)
  }

  /** Adding a URL not yet visited to `visited` and to the end of the log
      keeps the log a duplicate-free listing of `visited`. */
  lemma LogStep(v: set<string>, log: seq<string>, u: string)
    requires LogsVisits(log, v) && u !in v
    ensures LogsVisits(log + [u], v + {u})
  {
    assert forall x | x in log + [u] :: x in log || x == u;
  }

  /** Every logged page is the start page or a link of a page logged
      before it, so each visit was reached from the start through earlier
      visits. */
  ghost predicate Chained(log: seq<string>, start: string, links: string -> set<string>)
  {
    forall i | 0 <= i < |log| :: log[i] == start || exists j | 0 <= j < i :: log[i] in links(log[j])
  }

  /** `path` starts at `start`, follows links, ends at `u` and stays
      inside `v`. */
  ghost predicate PathTo(path: seq<string>, u: string, start: string, links: string -> set<string>,
                         v: set<string>)
  {
    && path != [] && path[0] == start && path[|path| - 1] == u
    && (forall k | 0 <= k < |path| - 1 :: path[k + 1] in links(path[k]))
    && (forall x | x in path :: x in v)
  }

  /** Logging the start page, or a link of a page already logged, keeps
      the log chained. */
  lemma ChainStep(log: seq<string>, start: string, links: string -> set<string>, u: string)
    requires Chained(log, start, links)
    requires u == start || exists w | w in log :: u in links(w)
    ensures Chained(log + [u], start, links)
  {
    var log' := log + [u];
    forall i | 0 <= i < |log'| && log'[i] != start
      ensures exists j | 0 <= j < i :: log'[i] in links(log'[j])
    {
      if i < |log| {
        var j :| 0 <= j < i && log[i] in links(log[j]);
        assert log'[j] == log[j];
      } else {
        var w :| w in log && u in links(w);
        var j :| 0 <= j < |log| && log[j] == w;
        assert log'[j] == w;
      }
    }
  }

  /** The page logged at `i` is reached from the start by a path of links
      through logged pages. */
  lemma {:induction false} ChainedPath(log: seq<string>, start: string, links: string -> set<string>, i: nat)
    requires Chained(log, start, links) && i < |log|
    ensures exists path :: PathTo(path, log[i], start, links, Elems(log))
    decreases i
  {
    if log[i] == start {
      assert PathTo([start], log[i], start, links, Elems(log));
    } else {
      var j :| 0 <= j < i && log[i] in links(log[j]);
      ChainedPath(log, start, links, j);
      var path :| PathTo(path, log[j], start, links, Elems(log));
      var path' := path + [log[i]];
      assert forall x | x in path' :: x in path || x == log[i];
      assert path'[|path'| - 2] == log[j];
      assert PathTo(path', log[i], start, links, Elems(log));
    }
  }

  /** With a chained log of the visited set, every visited page is reached
      from the start by a path of links through visited pages. */
  lemma ChainedReach(log: seq<string>, v: set<string>, start: string, links: string -> set<string>)
    requires Chained(log, start, links) && LogsVisits(log, v)
    ensures forall u | u in v :: exists path :: PathTo(path, u, start, links, v)
  {
    forall u | u in v
      ensures exists path :: PathTo(path, u, start, links, v)
    {
      var i :| 0 <= i < |log| && log[i] == u;
      ChainedPath(log, start, links, i);
      var path :| PathTo(path, u, start, links, Elems(log));
      assert PathTo(path, u, start, links, v);
    }
  }

  /** Taking `link` out of the links still to do moves it to the pushed
      ones unless it is visited. */
  lemma TakeOne(links: set<string>, rest: set<string>, visited: set<string>, pushed: set<string>, link: string)
    requires link in rest && rest <= links && pushed == links - rest - visited
    ensures link !in pushed
    ensures link !in visited ==> pushed + {link} == links - (rest - {link}) - visited
    ensures link in visited ==> pushed == links - (rest - {link}) - visited
  {
  }

  /** The set of the values `step` gives, anchor by anchor. */
  function Collect(hrefs: seq<string>, step: string -> Option<string>): set<string>
  {
    if hrefs == [] then {}
    else
      var last := hrefs[|hrefs| - 1];
      Collect(hrefs[..|hrefs| - 1], step) + (if step(last).Some? then {step(last).value} else {})
  }

  lemma CollectSnoc(hrefs: seq<string>, a: string, step: string -> Option<string>)
    ensures Collect(hrefs + [a], step)
            == Collect(hrefs, step) + (if step(a).Some? then {step(a).value} else {})
  {
    assert (hrefs + [a])[..|hrefs|] == hrefs;
  }

  /** The loop that gathers the values `step` gives, anchor by anchor, into
      a set. */
  method CollectEach(hrefs: seq<string>, step: string -> Option<string>) returns (links: set<string>)
    ensures links == Collect(hrefs, step)
  {
    links := {};
    for k := 0 to |hrefs|
      invariant links == Collect(hrefs[..k], step)
    {
      CollectSnoc(hrefs[..k], hrefs[k], step);
      assert hrefs[..k + 1] == hrefs[..k] + [hrefs[k]];
      var link := step(hrefs[k]);
      if link.Some? {
        links := links + {link.value};
      }
    }
    assert hrefs[..|hrefs|] == hrefs;
  }

  /** A value is collected exactly when some anchor gives it. */
  lemma {:induction false} CollectIff(hrefs: seq<string>, step: string -> Option<string>, link: string)
    ensures link in Collect(hrefs, step) <==> exists a | a in hrefs :: step(a) == Some(link)
  {
    if hrefs != [] {
      var init, last := hrefs[..|hrefs| - 1], hrefs[|hrefs| - 1];
      CollectIff(init, step, link);
      if link in Collect(hrefs, step) {
        if link in Collect(init, step) {
          var a :| a in init && step(a) == Some(link);
          var i :| 0 <= i < |init| && init[i] == a;
          assert hrefs[i] == a;
        } else {
          assert step(last) == Some(link);
        }
      }
      if exists a | a in hrefs :: step(a) == Some(link) {
        var a :| a in hrefs && step(a) == Some(link);
        var i :| 0 <= i < |hrefs| && hrefs[i] == a;
        if i < |init| {
          assert init[i] == a;
        }
      }
    }
  }

  lemma SubsetCard<T>(a: set<T>, b: set<T>)
    requires a <= b
    ensures |a| <= |b|
  {
    assert b == a + (b - a);
  }
}
