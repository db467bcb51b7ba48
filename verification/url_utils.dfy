/** URL canonicalisation and filtering (utils/url_utils.py).

    `urllib.parse` is modelled by a split of a URL into the components of
    the generic syntax of section 3 of RFC 3986: scheme, network location
    (authority), path, query and fragment, found the way `urlsplit` finds
    them. `urlparse` additionally cuts `;params` off the last path segment. */
module UrlUtils {
  import opened Strings

  /** What `urllib.parse.urlsplit` returns. */
  datatype SplitResult = SplitResult(scheme: string, netloc: string, path: string, query: string, fragment: string)

  /** What `urllib.parse.urlparse` returns. */
  datatype ParseResult = ParseResult(scheme: string, netloc: string, path: string, params: string, query: string, fragment: string)

  predicate IsAsciiAlpha(c: char)
  {
    'a' <= c <= 'z' || 'A' <= c <= 'Z'
  }

  /** The characters `urllib.parse` accepts in a scheme. */
  predicate IsSchemeChar(c: char)
  {
    IsAsciiAlpha(c) || '0' <= c <= '9' || c == '+' || c == '-' || c == '.'
  }

  /** The scheme (lowercased) and what follows its ':'; no scheme when the
      text before the first ':' is empty, does not start with a letter or
      holds a character that cannot be in a scheme. */
  function SplitScheme(url: string): (r: (string, string))
    ensures Lower(r.0) == r.0
  {
    var i := FindFrom(url, {':'}, 0);
    if 0 < i < |url| && IsAsciiAlpha(url[0]) && forall k | 0 <= k < i :: IsSchemeChar(url[k])
    then LowerIdempotent(url[..i]); (Lower(url[..i]), url[i + 1..])
    else ("", url)
  }

  /** After a leading "//", the network location runs to the first '/', '?'
      or '#'. */
  function SplitNetloc(rest: string): (r: (string, string))
    ensures '/' !in r.0 && '?' !in r.0 && '#' !in r.0
    ensures StartsWith(rest, "//") ==> r.1 == [] || r.1[0] in {'/', '?', '#'}
  {
    if StartsWith(rest, "//") then
      var d := FindFrom(rest, {'/', '?', '#'}, 2);
      (rest[2..d], rest[d..])
    else ("", rest)
  }

  /** Path, query and fragment: the fragment follows the first '#', the
      query the first '?' before it. */
  function SplitTail(tail: string): (r: (string, string, string))
    ensures '?' !in r.0 && '#' !in r.0
    ensures |r.0| <= |tail| && r.0 == tail[..|r.0|]
    ensures '?' !in tail && '#' !in tail ==> r == (tail, "", "")
  {
    var h := FindFrom(tail, {'#'}, 0);
    var beforeHash := tail[..h];
    var q := FindFrom(beforeHash, {'?'}, 0);
    assert '?' !in tail && '#' !in tail ==> h == |tail| && beforeHash == tail && q == |tail|;
    (beforeHash[..q],
     if q < |beforeHash| then beforeHash[q + 1..] else "",
     if h < |tail| then tail[h + 1..] else "")
  }

  /** `urlsplit(url)`. */
  function Split(url: string): (r: SplitResult)
    ensures Lower(r.scheme) == r.scheme
    ensures '/' !in r.netloc && '?' !in r.netloc && '#' !in r.netloc
    ensures '?' !in r.path && '#' !in r.path
  {
    var (scheme, rest) := SplitScheme(url);
    var (netloc, tail) := SplitNetloc(rest);
    var (path, query, fragment) := SplitTail(tail);
    SplitResult(scheme, netloc, path, query, fragment)
  }

  /** The schemes for which `urlparse` looks for `;params`. */
  predicate UsesParams(scheme: string)
  {
    scheme in {"", "ftp", "hdl", "prospero", "http", "imap", "https", "shttp",
               "rtsp", "rtsps", "rtspu", "sip", "sips", "mms", "sftp", "tel"}
  }

  /** `_splitparams`: the parameters start at the first ';' after the last
      '/' (or at the first ';' when there is no '/'). Nothing is cut exactly
      when there is a '/' and no ';' after the last one; otherwise the path
      is the kept part, a ';' and the parameters, which hold no '/', and the
      kept part holds no ';' after the last '/'. */
  function SplitParams(path: string): (r: (string, string))
    requires ';' in path
    ensures r == (path, "") || (path == r.0 + ";" + r.1 && '/' !in r.1)
    ensures r == (path, "") ==> '/' in path
    ensures '/' !in path ==> ';' !in r.0
    ensures r == (path, "") <==> '/' in path && forall k | RFind(path, '/') < k < |path| :: path[k] != ';'
    ensures r != (path, "") ==>
              RFind(path, '/') < |r.0| && forall k | RFind(path, '/') < k < |r.0| :: r.0[k] != ';'
  {
    var slash := RFind(path, '/');
    if slash >= 0 then
      var i := FindFrom(path, {';'}, slash);
      if i == |path| then (path, "") else (path[..i], path[i + 1..])
    else
      var i := FindFrom(path, {';'}, 0);
      (path[..i], path[i + 1..])
  }

  /** SplitParams's contract fixes the cut: any split at a ';' that leaves
      no ';' in the kept part after the last '/' and no '/' in the
      parameters is the one `_splitparams` makes. */
  lemma SplitParamsDetermined(path: string, kept: string, params: string)
    requires path == kept + ";" + params && '/' !in params
    requires RFind(path, '/') < |kept| && forall k | RFind(path, '/') < k < |kept| :: kept[k] != ';'
    ensures SplitParams(path) == (kept, params)
  {
    assert path[|kept|] == ';';
    var r := SplitParams(path);
    assert r != (path, "");
    assert path[|r.0|] == ';';
    assert r.0 == path[..|kept|] == kept;
  }

  /** `urlparse(url)`. */
  function Parse(url: string): (r: ParseResult)
    ensures r.scheme == Split(url).scheme && r.netloc == Split(url).netloc
  {
    var s := Split(url);
    if UsesParams(s.scheme) && ';' in s.path then
      var (path, params) := SplitParams(s.path);
      ParseResult(s.scheme, s.netloc, path, params, s.query, s.fragment)
    else
      ParseResult(s.scheme, s.netloc, s.path, "", s.query, s.fragment)
  }

  /** `urlunparse((scheme, netloc, path, '', '', ''))` for the schemes
      `normalize_url` produces; a helper of NormalizeUrl, whose result
      NormalizedShape splits back into its components. */
  function Unparse(scheme: string, netloc: string, path: string): string
    requires scheme == "http" || scheme == "https"
  {
    scheme + ":" +
      if netloc != "" then "//" + netloc + (if path != "" && path[0] != '/' then "/" + path else path)
      else if path == "" || path[0] == '/' then "//" + path
      else path
  }

  predicate HasHttpPrefix(url: string)
  {
    StartsWith(url, "http://") || StartsWith(url, "https://")
  }

  /** `normalize_url` first prepends "https://" unless the URL already
      starts with "http://" or "https://" (a case-sensitive test). */
  function Prefixed(url: string): (u: string)
    ensures HasHttpPrefix(u)
  {
    if HasHttpPrefix(url) then url else "https://" + url
  }

  /** The prefix never turns a URL into an http one. */
  lemma PrefixedKeepsScheme(url: string)
    ensures StartsWith(Prefixed(url), "http://") <==> StartsWith(url, "http://")
  {
    if !HasHttpPrefix(url) {
      assert ("https://" + url)[4] == 's';
    }
  }

  lemma LowerHttp()
    ensures Lower("http") == "http" && Lower("https") == "https"
  {
    assert Lower("http") == [LowerChar('h'), LowerChar('t'), LowerChar('t'), LowerChar('p')];
    assert Lower("https") == [LowerChar('h'), LowerChar('t'), LowerChar('t'), LowerChar('p'), LowerChar('s')];
  }

  lemma HttpLiterals()
    ensures "http" + "://" == "http://" && "https" + "://" == "https://"
    ensures "http" + ":" + "//" == "http://" && "https" + ":" + "//" == "https://"
  {
  }

  /** The scheme of an http(s) URL, and what follows its ':'. */
  lemma SchemeOfPrefix(u: string, scheme: string)
    requires scheme == "http" || scheme == "https"
    requires StartsWith(u, scheme + "://")
    ensures SplitScheme(u) == (scheme, u[|scheme| + 1..])
    ensures StartsWith(u[|scheme| + 1..], "//")
  {
    var n := |scheme|;
    assert u[..n] == scheme by {
      assert u[..n] == (scheme + "://")[..n];
    }
    assert u[n] == ':' && u[n + 1] == '/' && u[n + 2] == '/';
    FindFromIs(u, {':'}, 0, n);
    LowerHttp();
    assert IsAsciiAlpha(u[0]);
    assert forall k | 0 <= k < n :: IsSchemeChar(u[k]);
    assert u[n + 1..][..2] == "//";
  }

  /** A URL with an http prefix splits into the scheme of that prefix and a
      path that is empty or starts with '/'. */
  lemma SplitHttp(u: string)
    requires HasHttpPrefix(u)
    ensures Split(u).scheme == (if StartsWith(u, "http://") then "http" else "https")
    ensures Split(u).path == "" || Split(u).path[0] == '/'
  {
    var scheme := if StartsWith(u, "http://") then "http" else "https";
    HttpLiterals();
    SchemeOfPrefix(u, scheme);
    var tail := SplitNetloc(u[|scheme| + 1..]).1;
    var path := SplitTail(tail).0;
    assert path != "" ==> path[0] == tail[0];
  }

  /** A path in canonical form: "/" alone, or starting with '/' and not
      ending with '/'. */
  predicate IsCanonicalPath(p: string)
  {
    p == "/" || (|p| >= 2 && p[0] == '/' && p[|p| - 1] != '/')
  }

  /** `path.rstrip('/')`, then "/" in place of an empty path. */
  function CanonicalPath(path: string): (p: string)
    ensures path == "" || path[0] == '/' ==> IsCanonicalPath(p)
    ensures p == "/" || (|p| <= |path| && p == path[..|p|])
    ensures p != "/" ==> forall k :: |p| <= k < |path| ==> path[k] == '/'
    ensures p == "/" ==> forall k :: 0 <= k < |path| ==> path[k] == '/'
  {
    var stripped := RStrip(path, '/');
    if stripped == "" then "/" else stripped
  }

  lemma CanonicalPathFixed(p: string)
    requires IsCanonicalPath(p)
    ensures CanonicalPath(p) == p
  {
  }

  /** Splitting an http(s) URL assembled from clean components gives those
      components back, with an empty query and fragment. */
  lemma SplitCompose(scheme: string, netloc: string, path: string)
    requires scheme == "http" || scheme == "https"
    requires '/' !in netloc && '?' !in netloc && '#' !in netloc
    requires |path| > 0 && path[0] == '/' && '?' !in path && '#' !in path
    ensures Split(scheme + "://" + netloc + path) == SplitResult(scheme, netloc, path, "", "")
  {
    var u := scheme + "://" + netloc + path;
    var rest := "//" + netloc + path;
    assert StartsWith(u, scheme + "://");
    SchemeOfPrefix(u, scheme);
    assert u[|scheme| + 1..] == rest;
    NetlocOfRest(netloc, path);
  }

  lemma NetlocOfRest(netloc: string, path: string)
    requires '/' !in netloc && '?' !in netloc && '#' !in netloc
    requires |path| > 0 && path[0] == '/'
    ensures SplitNetloc("//" + netloc + path) == (netloc, path)
  {
    var rest := "//" + netloc + path;
    assert StartsWith(rest, "//");
    FindFromIs(rest, {'/', '?', '#'}, 2, 2 + |netloc|);
    assert rest[2..2 + |netloc|] == netloc;
    assert rest[2 + |netloc|..] == path;
  }

  /** The form `normalize_url` gives: an http or https scheme, "://", a
      lowercase network location and a canonical path, with nothing after
      it. */
  predicate IsNormalized(u: string)
  {
    var s := Split(u);
    && (s.scheme == "http" || s.scheme == "https")
    && u == s.scheme + "://" + s.netloc + s.path
    && Lower(s.netloc) == s.netloc
    && IsCanonicalPath(s.path)
  }

  /** `normalize_url`, with the path taken from `urlsplit` (see
      NormalizeUrlAsWritten for the `urlparse` original). The result splits
      back into the scheme of the prefix, the lowercased network location
      and the path without trailing slashes ("/" when nothing is left);
      query, parameters and fragment are gone. */
  function NormalizeUrl(url: string): (r: string)
    ensures IsNormalized(r)
    ensures Split(r).scheme == (if StartsWith(url, "http://") then "http" else "https")
    ensures Split(r).netloc == Lower(Split(Prefixed(url)).netloc)
    ensures Split(r).path == CanonicalPath(Split(Prefixed(url)).path)
    ensures Split(r).query == "" && Split(r).fragment == ""
  {
    var parsed := Split(Prefixed(url));
    SplitHttp(Prefixed(url));
    PrefixedKeepsScheme(url);
    NormalizedShape(parsed.scheme, parsed.netloc, parsed.path);
    Unparse(Lower(parsed.scheme), Lower(parsed.netloc), CanonicalPath(parsed.path))
  }

  /** What Unparse builds from split components is normalized and splits
      back into them. */
  lemma {:induction false} NormalizedShape(scheme: string, netloc: string, path: string)
    requires scheme == "http" || scheme == "https"
    requires '/' !in netloc && '?' !in netloc && '#' !in netloc
    requires path == "" || path[0] == '/'
    requires '?' !in path && '#' !in path
    ensures Lower(scheme) == scheme
    ensures var r := Unparse(scheme, Lower(netloc), CanonicalPath(path));
            && IsNormalized(r)
            && Split(r) == SplitResult(scheme, Lower(netloc), CanonicalPath(path), "", "")
  {
    LowerIdempotent(scheme);
    assert scheme == "http" ==> Lower(scheme) == Lower(Lower("http"));
    var n := Lower(netloc);
    var p := CanonicalPath(path);
    LowerKeeps(netloc, '/');
    LowerKeeps(netloc, '?');
    LowerKeeps(netloc, '#');
    LowerIdempotent(netloc);
    if p != "/" {
      assert forall k :: 0 <= k < |p| ==> p[k] == path[k];
    }
    assert '?' !in p && '#' !in p;
    assert Unparse(scheme, n, p) == scheme + "://" + n + p;
    SplitCompose(scheme, n, p);
  }

  /** A normalized URL already carries its http or https prefix. */
  lemma NormalizedPrefix(u: string)
    requires IsNormalized(u)
    ensures Prefixed(u) == u
    ensures StartsWith(u, "http://") <==> Split(u).scheme == "http"
  {
    var scheme := Split(u).scheme;
    HttpLiterals();
    assert u[..|scheme| + 3] == scheme + "://";
    assert scheme == "https" ==> u[4] == 's';
  }

  /** Normalizing a normalized URL changes nothing. */
  lemma NormalizedIsFixedPoint(u: string)
    requires IsNormalized(u)
    ensures NormalizeUrl(u) == u
  {
    var s := Split(u);
    NormalizedPrefix(u);
    CanonicalPathFixed(s.path);
    LowerIdempotent(s.netloc);
    var s' := Split(NormalizeUrl(u));
    assert s' == s;
  }

  /** The fixed points of NormalizeUrl are exactly the normalized URLs. */
  lemma NormalizeUrlFixedPoints(u: string)
    ensures NormalizeUrl(u) == u <==> IsNormalized(u)
  {
    if IsNormalized(u) {
      NormalizedIsFixedPoint(u);
    }
  }

  /** `normalize_url` is idempotent; the worker relies on this when it
      normalizes links `_extract_links` already normalized. */
  lemma NormalizeUrlIdempotent(url: string)
    ensures NormalizeUrl(NormalizeUrl(url)) == NormalizeUrl(url)
  {
    NormalizedIsFixedPoint(NormalizeUrl(url));
  }

  /** `normalize_url` as written: the path comes from `urlparse`, which has
      already cut `;params` off the last segment. The result has the same
      form as NormalizeUrl's, but its path is the canonical form of the
      `urlparse` path, so it can differ from NormalizeUrl's when the last
      segment holds a ';'. */
  function NormalizeUrlAsWritten(url: string): (r: string)
    ensures IsNormalized(r)
    ensures Split(r).scheme == (if StartsWith(url, "http://") then "http" else "https")
    ensures Split(r).netloc == Lower(Split(Prefixed(url)).netloc)
    ensures Split(r).path == CanonicalPath(Parse(Prefixed(url)).path)
    ensures Split(r).query == "" && Split(r).fragment == ""
  {
    var parsed := Parse(Prefixed(url));
    SplitHttp(Prefixed(url));
    PrefixedKeepsScheme(url);
    ParsedPathShape(Prefixed(url));
    NormalizedShape(parsed.scheme, parsed.netloc, parsed.path);
    Unparse(Lower(parsed.scheme), Lower(parsed.netloc), CanonicalPath(parsed.path))
  }

  /** `urlparse` keeps what `urlsplit` says of an http(s) path: empty or
      starting with '/', with no '?' or '#'. */
  lemma ParsedPathShape(u: string)
    requires HasHttpPrefix(u)
    ensures var p := Parse(u).path;
            (p == "" || p[0] == '/') && '?' !in p && '#' !in p
  {
    SplitHttp(u);
    var s := Split(u);
    if UsesParams(s.scheme) && ';' in s.path {
      var slash := RFind(s.path, '/');
      assert slash >= 0;
      var i := FindFrom(s.path, {';'}, slash);
      assert i > 0 by {
        assert s.path[0] == '/';
      }
      assert forall c | c in s.path[..i] :: c in s.path;
    }
  }

  /** Stripping the trailing '/' can leave a ';' after the last '/' of the
      path, so a second pass cuts that segment's parameters off: the
      as-written normalization is not idempotent. With host "x", segment
      "a" and parameters "b": "https://x/a;b/" gives "https://x/a;b", which
      gives "https://x/a". */
  lemma {:induction false} AsWrittenNotIdempotent(host: string, segment: string, params: string)
    requires Lower(host) == host && '/' !in host && '?' !in host && '#' !in host
    requires '/' !in segment && ';' !in segment && '?' !in segment && '#' !in segment
    requires '/' !in params && '?' !in params && '#' !in params
    ensures NormalizeUrlAsWritten("https://" + host + "/" + segment + ";" + params + "/")
            == "https://" + host + "/" + segment + ";" + params
    ensures NormalizeUrlAsWritten("https://" + host + "/" + segment + ";" + params)
            == "https://" + host + "/" + segment
  {
    var last := "/" + segment + ";" + params;
    TrailingSlashKeepsParams(last);
    AsWrittenPass(host, last + "/", last + "/", last);
    ParamsAfterLastSlash(segment, params);
    AsWrittenPass(host, last, "/" + segment, "/" + segment);
    Regroup(host, segment, params);
  }

  /** With a '/' after the ';', `_splitparams` cuts nothing, and stripping
      removes just the final '/'. */
  lemma TrailingSlashKeepsParams(last: string)
    requires |last| >= 2 && last[0] == '/' && last[|last| - 1] != '/'
    requires '?' !in last && '#' !in last && ';' in last
    ensures SplitParams(last + "/").0 == last + "/"
    ensures CanonicalPath(last + "/") == last && IsCanonicalPath(last)
  {
    var slashed := last + "/";
    assert RFind(slashed, '/') == |last|;
    FindFromIs(slashed, {';'}, |last|, |slashed|);
    assert slashed[..|last|] == last;
  }

  /** In "/" + segment + ";" + params the only '/' is the first character,
      so `_splitparams` cuts at the ';'. */
  lemma ParamsAfterLastSlash(segment: string, params: string)
    requires '/' !in segment && ';' !in segment && '?' !in segment && '#' !in segment
    requires '/' !in params && '?' !in params && '#' !in params
    ensures var last := "/" + segment + ";" + params;
            && |last| >= 2 && last[0] == '/' && last[|last| - 1] != '/'
            && '?' !in last && '#' !in last && ';' in last
            && SplitParams(last).0 == "/" + segment
            && CanonicalPath("/" + segment) == "/" + segment
            && IsCanonicalPath("/" + segment)
  {
    var last := "/" + segment + ";" + params;
    assert last[1 + |segment|] == ';';
    assert RFind(last, '/') == 0 by {
      assert forall k :: 0 < k < |last| ==> last[k] != '/';
    }
    FindFromIs(last, {';'}, 0, 1 + |segment|);
    assert last[..1 + |segment|] == "/" + segment;
  }

  lemma Regroup(host: string, segment: string, params: string)
    ensures "https://" + host + ("/" + segment + ";" + params + "/")
            == "https://" + host + "/" + segment + ";" + params + "/"
    ensures "https://" + host + ("/" + segment + ";" + params)
            == "https://" + host + "/" + segment + ";" + params
    ensures "https://" + host + ("/" + segment) == "https://" + host + "/" + segment
  {
  }

  /** One run of NormalizeUrlAsWritten on "https://" + host + path, given
      what `urlparse` leaves of the path and what stripping leaves of that. */
  lemma {:induction false} AsWrittenPass(host: string, path: string, parsedPath: string, canonical: string)
    requires Lower(host) == host && '/' !in host && '?' !in host && '#' !in host
    requires |path| > 0 && path[0] == '/' && '?' !in path && '#' !in path && ';' in path
    requires SplitParams(path).0 == parsedPath && CanonicalPath(parsedPath) == canonical
    requires IsCanonicalPath(canonical)
    ensures NormalizeUrlAsWritten("https://" + host + path) == "https://" + host + canonical
  {
    var url := "https://" + host + path;
    PrefixedHttps(host, path);
    ParseHttps(host, path);
    AsWrittenUnfold(url);
    UnparseHttp(host, canonical);
  }

  lemma PrefixedHttps(host: string, path: string)
    ensures Prefixed("https://" + host + path) == "https://" + host + path
  {
    assert ("https://" + host + path)[..8] == "https://";
  }

  lemma ParseHttps(host: string, path: string)
    requires '/' !in host && '?' !in host && '#' !in host
    requires |path| > 0 && path[0] == '/' && '?' !in path && '#' !in path && ';' in path
    ensures var parsed := Parse("https://" + host + path);
            parsed.scheme == "https" && parsed.netloc == host && parsed.path == SplitParams(path).0
  {
    assert "https://" + host + path == "https" + "://" + host + path;
    SplitCompose("https", host, path);
    assert UsesParams("https");
  }

  lemma AsWrittenUnfold(url: string)
    requires Prefixed(url) == url && Parse(url).scheme == "https"
    ensures NormalizeUrlAsWritten(url) == Unparse("https", Lower(Parse(url).netloc), CanonicalPath(Parse(url).path))
  {
    LowerHttp();
  }

  lemma UnparseHttp(host: string, path: string)
    requires |path| > 0 && path[0] == '/'
    ensures Unparse("http", host, path) == "http://" + host + path
    ensures Unparse("https", host, path) == "https://" + host + path
  {
    assert "http" + ":" + "//" == "http://";
    assert "https" + ":" + "//" == "https://";
  }

  /** `any(path.endswith(ext) for ext in banned_extensions)`. */
  predicate HasBannedExtension(path: string, bannedExtensions: set<string>)
  {
    exists ext | ext in bannedExtensions :: EndsWith(path, ext)
  }

  /** `is_valid_url`: the host must equal the base domain exactly (no case
      folding, no subdomains), the scheme must be http or https, and the
      lowercased path must end in no banned extension. */
  predicate IsValidUrl(url: string, baseDomain: string, bannedExtensions: set<string>): (r: bool)
    ensures r <==> && Split(url).netloc == baseDomain
                   && (Split(url).scheme == "http" || Split(url).scheme == "https")
                   && forall ext | ext in bannedExtensions :: !EndsWith(Lower(Parse(url).path), ext)
  {
    var parsed := Parse(url);
    var path := Lower(parsed.path);
    if parsed.netloc != baseDomain || parsed.scheme !in ["http", "https"] then false
    else if HasBannedExtension(path, bannedExtensions) then false
    else true
  }

  /** A valid URL that already starts with "http://" or "https://" keeps
      its host through `normalize_url`, up to case: the crawl stays on the
      base domain. */
  lemma NormalizeKeepsHost(url: string, baseDomain: string, bannedExtensions: set<string>)
    requires IsValidUrl(url, baseDomain, bannedExtensions) && HasHttpPrefix(url)
    ensures Split(NormalizeUrl(url)).netloc == Lower(baseDomain)
  {
  }
}
