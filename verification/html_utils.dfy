/** Snippet extraction (utils/html_utils.py): the occurrences of a search
    term in a page's text, each shown inside a window of surrounding text
    with every occurrence in the window wrapped in ANSI highlight markers.

    Regular expressions appear only as `re.escape`d literals, so matching
    is substring search; `re.IGNORECASE` and `str.lower` are ASCII case
    folding (Strings.Lower), which keeps every index of the lowered text
    aligned with the original. */
module HtmlUtils {
  import opened Strings

  /** ANSI bright yellow, written before each highlighted occurrence. */
  const Highlight: string := "\U{1b}[93m"
  /** ANSI reset, written after each highlighted occurrence. */
  const Reset: string := "\U{1b}[0m"
  /** The escape character both markers start with. */
  const Esc: char := '\U{1b}'

  function Max(a: int, b: int): int
  {
    if a < b then b else a
  }

  function Min(a: int, b: int): int
  {
    if a < b then a else b
  }

  /** Match positions in increasing order, none overlapping the one before:
      a match of length `n` is followed by one at least `n` further on, and
      an empty match by one at a later index. */
  predicate Spaced(ms: seq<nat>, n: nat)
  {
    forall j, k | 0 <= j < k < |ms| :: ms[j] + Max(n, 1) <= ms[k]
  }

  /** The start positions `re.finditer` reports for the literal `t` in `s`,
      scanning from index `i`: leftmost first, resuming after each match,
      and one step further after an empty match (so the empty term matches
      at every index from `i` to `|s|`). */
  function MatchesFrom(s: string, t: string, i: nat): (r: seq<nat>)
    requires i <= |s| + 1
    ensures forall k | 0 <= k < |r| :: i <= r[k] && OccursAt(s, t, r[k])
    ensures Spaced(r, |t|)
    decreases |s| + 1 - i
  {
    if i + |t| > |s| then []
    else if OccursAt(s, t, i) then [i] + MatchesFrom(s, t, i + Max(|t|, 1))
    else MatchesFrom(s, t, i + 1)
  }

  /** `[m.start() for m in re.finditer(re.escape(t), s)]`. */
  function Matches(s: string, t: string): seq<nat>
  {
    MatchesFrom(s, t, 0)
  }

  /** Position `p` lies inside one of the matches `ms` of length `n` (is
      one of them, when `n` is 0). */
  predicate Covered(ms: seq<nat>, n: nat, p: nat)
  {
    exists k | 0 <= k < |ms| :: ms[k] <= p < ms[k] + Max(n, 1)
  }

  /** No occurrence at or after `i` is skipped: each lies inside a match,
      the `k`th. With soundness and spacing this pins the matches down to
      the greedy leftmost choice. */
  lemma {:induction false} MatchesFromComplete(s: string, t: string, i: nat, p: nat) returns (k: nat)
    requires i <= p && OccursAt(s, t, p)
    ensures k < |MatchesFrom(s, t, i)|
    ensures MatchesFrom(s, t, i)[k] <= p < MatchesFrom(s, t, i)[k] + Max(|t|, 1)
    decreases |s| + 1 - i
  {
    if OccursAt(s, t, i) {
      var next := i + Max(|t|, 1);
      var rest := MatchesFrom(s, t, next);
      assert MatchesFrom(s, t, i) == [i] + rest;
      if p < next {
        k := 0;
      } else {
        var j := MatchesFromComplete(s, t, next, p);
        k := j + 1;
      }
    } else {
      k := MatchesFromComplete(s, t, i + 1, p);
    }
  }

  lemma MatchesComplete(s: string, t: string, p: nat)
    requires OccursAt(s, t, p)
    ensures Covered(Matches(s, t), |t|, p)
  {
    var k := MatchesFromComplete(s, t, 0, p);
  }

  /** `re.finditer` finds nothing exactly when the term does not occur. */
  lemma MatchesEmptyIff(s: string, t: string)
    ensures Matches(s, t) == [] <==> !Contains(s, t)
  {
    if Contains(s, t) {
      var p :| 0 <= p <= |s| - |t| && OccursAt(s, t, p);
      MatchesComplete(s, t, p);
    }
    if Matches(s, t) != [] {
      assert OccursAt(s, t, Matches(s, t)[0]);
    }
  }

  /** The empty term matches at every index, the end included. */
  lemma {:induction false} EmptyTermMatchesFrom(s: string, i: nat)
    requires i <= |s| + 1
    ensures MatchesFrom(s, "", i) == seq(|s| + 1 - i, k requires 0 <= k < |s| + 1 - i => i + k)
    decreases |s| + 1 - i
  {
    if i <= |s| {
      assert OccursAt(s, "", i);
      EmptyTermMatchesFrom(s, i + 1);
    }
  }

  lemma EmptyTermMatches(s: string)
    ensures |Matches(s, "")| == |s| + 1
  {
    EmptyTermMatchesFrom(s, 0);
  }

  /** `w[i..]` with `Highlight` inserted before and `Reset` after each of
      the `n`-character regions starting at `ms`. */
  function Wrap(w: string, i: nat, ms: seq<nat>, n: nat): string
    requires i <= |w|
    requires forall k | 0 <= k < |ms| :: i <= ms[k] && ms[k] + n <= |w|
    requires Spaced(ms, n)
    decreases |ms|
  {
    if ms == [] then w[i..]
    else
      assert forall k | 0 <= k < |ms| - 1 :: ms[1..][k] == ms[k + 1];
      w[i..ms[0]] + Highlight + w[ms[0]..ms[0] + n] + Reset + Wrap(w, ms[0] + n, ms[1..], n)
  }

  /** `re.sub(f"({re.escape(term)})", highlight + r"\1" + reset, w,
      flags=re.IGNORECASE)`: every case-insensitive match, found by the
      same left-to-right scan as `re.finditer`, is wrapped in the markers
      with its own characters kept. */
  function HighlightTerm(w: string, term: string): (r: string)
    ensures |r| == |w| + 9 * |Matches(Lower(w), Lower(term))|
  {
    var t := Lower(term);
    WrapLength(w, 0, Matches(Lower(w), t), |t|);
    Wrap(w, 0, Matches(Lower(w), t), |t|)
  }

  /** Each region gains the 9 characters of its two markers. */
  lemma {:induction false} WrapLength(w: string, i: nat, ms: seq<nat>, n: nat)
    requires i <= |w|
    requires forall k | 0 <= k < |ms| :: i <= ms[k] && ms[k] + n <= |w|
    requires Spaced(ms, n)
    ensures |Wrap(w, i, ms, n)| == |w| - i + 9 * |ms|
    decreases |ms|
  {
    if ms != [] {
      WrapStep(w, i, ms, n);
      WrapLength(w, ms[0] + n, ms[1..], n);
    }
  }

  /** `piece` occurs in `s` starting at index `o`. */
  predicate PlacedAt(s: string, o: nat, piece: string)
  {
    o + |piece| <= |s| && s[o..o + |piece|] == piece
  }

  /** What occurs in the second part of a concatenation occurs in the
      whole, shifted by the length of the first. */
  lemma PlacedAfter(full: string, head: string, tail: string, o': nat, o: nat, piece: string)
    requires full == head + tail && o == |head| + o'
    requires PlacedAt(tail, o', piece)
    ensures PlacedAt(full, o, piece)
  {
    assert full[o..o + |piece|] == tail[o'..o' + |piece|];
  }

  /** A region wrapped in the two markers, after `before`. */
  lemma PlacedMarked(full: string, before: string, region: string, after: string, o: nat)
    requires full == before + Highlight + region + Reset + after && o == |before|
    ensures PlacedAt(full, o, Highlight + region + Reset)
  {
    assert full == before + (Highlight + region + Reset) + after;
    assert full[o..o + |Highlight + region + Reset|] == Highlight + region + Reset;
  }

  /** The `k`th region sits in `Wrap(w, i, ms, n)` after the text before it
      and the `k` marker pairs (9 characters each) of the regions before
      it, between a `Highlight` and a `Reset`, with its own characters
      kept. */
  predicate WrappedAt(w: string, i: nat, ms: seq<nat>, n: nat, k: nat)
    requires i <= |w|
    requires forall j | 0 <= j < |ms| :: i <= ms[j] && ms[j] + n <= |w|
    requires Spaced(ms, n)
    requires k < |ms|
  {
    PlacedAt(Wrap(w, i, ms, n), ms[k] - i + 9 * k, Highlight + w[ms[k]..ms[k] + n] + Reset)
  }

  /** The first region of a wrapped string sits right after the text
      before it. */
  lemma WrapAtFirst(w: string, i: nat, ms: seq<nat>, n: nat)
    requires i <= |w|
    requires forall j | 0 <= j < |ms| :: i <= ms[j] && ms[j] + n <= |w|
    requires Spaced(ms, n)
    requires ms != []
    ensures WrappedAt(w, i, ms, n, 0)
  {
    var m := ms[0];
    PlacedMarked(Wrap(w, i, ms, n), w[i..m], w[m..m + n], Wrap(w, m + n, ms[1..], n), m - i);
  }

  /** The `k`th region, placed in the rest of a wrapped string as its
      `k - 1`st, moves right by the first region's text and its 9 marker
      characters. */
  lemma WrapAtLater(w: string, i: nat, ms: seq<nat>, n: nat, k: nat)
    requires i <= |w|
    requires forall j | 0 <= j < |ms| :: i <= ms[j] && ms[j] + n <= |w|
    requires Spaced(ms, n)
    requires 0 < k < |ms|
    requires ms[0] + n <= |w| && Spaced(ms[1..], n)
    requires forall j | 0 <= j < |ms| - 1 :: ms[0] + n <= ms[1..][j] && ms[1..][j] + n <= |w|
    requires WrappedAt(w, ms[0] + n, ms[1..], n, k - 1)
    ensures WrappedAt(w, i, ms, n, k)
  {
    var m := ms[0];
    var head := w[i..m] + Highlight + w[m..m + n] + Reset;
    assert ms[1..][k - 1] == ms[k];
    PlacedAfter(Wrap(w, i, ms, n), head, Wrap(w, m + n, ms[1..], n), ms[k] - (m + n) + 9 * (k - 1),
                ms[k] - i + 9 * k, Highlight + w[ms[k]..ms[k] + n] + Reset);
  }

  /** Every region of a wrapped string sits where WrappedAt says. */
  lemma {:induction false} WrapAt(w: string, i: nat, ms: seq<nat>, n: nat, k: nat)
    requires i <= |w|
    requires forall j | 0 <= j < |ms| :: i <= ms[j] && ms[j] + n <= |w|
    requires Spaced(ms, n)
    requires k < |ms|
    ensures WrappedAt(w, i, ms, n, k)
    decreases |ms|
  {
    if k == 0 {
      WrapAtFirst(w, i, ms, n);
    } else {
      WrapRest(w, i, ms, n);
      WrapAt(w, ms[0] + n, ms[1..], n, k - 1);
      WrapAtLater(w, i, ms, n, k);
    }
  }

  /** Every match of the term in a window is highlighted: the `k`th sits
      between a `Highlight` and a `Reset`, shifted by the `k` marker pairs
      (9 characters each) before it, with its own characters (the term up to case). */
  lemma HighlightTermAt(w: string, term: string, k: nat)
    requires k < |Matches(Lower(w), Lower(term))|
    ensures var q := Matches(Lower(w), Lower(term))[k];
            && q + |term| <= |w|
            && Lower(w[q..q + |term|]) == Lower(term)
            && PlacedAt(HighlightTerm(w, term), q + 9 * k, Highlight + w[q..q + |term|] + Reset)
  {
    var t := Lower(term);
    var ms := Matches(Lower(w), t);
    var q := ms[k];
    assert OccursAt(Lower(w), t, q);
    LowerSlice(w, q, q + |t|);
    WrapAt(w, 0, ms, |t|, k);
  }

  /** Removes every `Highlight` and `Reset` marker. */
  function StripMarkers(s: string): string
    decreases |s|
  {
    if s == [] then []
    else if StartsWith(s, Highlight) then StripMarkers(s[|Highlight|..])
    else if StartsWith(s, Reset) then StripMarkers(s[|Reset|..])
    else [s[0]] + StripMarkers(s[1..])
  }

  /** The number of `Highlight` markers. */
  function CountHighlights(s: string): nat
    decreases |s|
  {
    if s == [] then 0
    else if StartsWith(s, Highlight) then 1 + CountHighlights(s[|Highlight|..])
    else CountHighlights(s[1..])
  }

  /** A string that does not start with the escape character starts with
      neither marker. */
  lemma NoMarkerAtStart(s: string)
    requires s != [] && s[0] != Esc
    ensures !StartsWith(s, Highlight) && !StartsWith(s, Reset)
  {
    assert |Highlight| <= |s| ==> s[..|Highlight|][0] == s[0];
    assert |Reset| <= |s| ==> s[..|Reset|][0] == s[0];
  }

  lemma {:induction false} StripPlain(u: string, x: string)
    requires Esc !in u
    ensures StripMarkers(u + x) == u + StripMarkers(x)
    ensures CountHighlights(u + x) == CountHighlights(x)
    decreases |u|
  {
    if u != [] {
      assert (u + x)[0] == u[0] != Esc;
      NoMarkerAtStart(u + x);
      assert (u + x)[1..] == u[1..] + x;
      StripPlain(u[1..], x);
      assert u == [u[0]] + u[1..];
    } else {
      assert u + x == x;
    }
  }

  lemma StripHighlight(x: string)
    ensures StripMarkers(Highlight + x) == StripMarkers(x)
    ensures CountHighlights(Highlight + x) == 1 + CountHighlights(x)
  {
    assert (Highlight + x)[..|Highlight|] == Highlight;
    assert (Highlight + x)[|Highlight|..] == x;
  }

  lemma StripReset(x: string)
    ensures StripMarkers(Reset + x) == StripMarkers(x)
    ensures CountHighlights(Reset + x) == CountHighlights(x)
  {
    var s := Reset + x;
    assert s[2] == '0' != Highlight[2];
    assert s[..|Reset|] == Reset;
    assert s[|Reset|..] == x;
    assert s[1..] == "[0m" + x;
    StripPlain("[0m", x);
  }

  /** The regions after the first lie within the text after the first
      region, and are still spaced. */
  lemma WrapRest(w: string, i: nat, ms: seq<nat>, n: nat)
    requires i <= |w| && ms != []
    requires forall k | 0 <= k < |ms| :: i <= ms[k] && ms[k] + n <= |w|
    requires Spaced(ms, n)
    ensures ms[0] + n <= |w|
    ensures forall k | 0 <= k < |ms| - 1 :: ms[0] + n <= ms[1..][k] && ms[1..][k] + n <= |w|
    ensures Spaced(ms[1..], n)
  {
    assert forall k | 0 <= k < |ms| - 1 :: ms[1..][k] == ms[k + 1];
  }

  /** One step of Wrap, with the concatenation grouped to the right. */
  lemma WrapStep(w: string, i: nat, ms: seq<nat>, n: nat)
    requires i <= |w| && ms != []
    requires forall k | 0 <= k < |ms| :: i <= ms[k] && ms[k] + n <= |w|
    requires Spaced(ms, n)
    ensures forall k | 0 <= k < |ms| - 1 :: ms[0] + n <= ms[1..][k] && ms[1..][k] + n <= |w|
    ensures Spaced(ms[1..], n)
    ensures Wrap(w, i, ms, n)
            == w[i..ms[0]] + (Highlight + (w[ms[0]..ms[0] + n] + (Reset + Wrap(w, ms[0] + n, ms[1..], n))))
  {
    WrapRest(w, i, ms, n);
  }

  /** Markers around a marker-free region disappear on stripping; the
      region and what precedes it stay. */
  lemma StripSegment(before: string, inner: string, rest: string)
    requires Esc !in before && Esc !in inner
    ensures StripMarkers(before + (Highlight + (inner + (Reset + rest))))
            == before + (inner + StripMarkers(rest))
    ensures CountHighlights(before + (Highlight + (inner + (Reset + rest))))
            == 1 + CountHighlights(rest)
  {
    StripPlain(before, Highlight + (inner + (Reset + rest)));
    StripHighlight(inner + (Reset + rest));
    StripPlain(inner, Reset + rest);
    StripReset(rest);
  }

  /** Slices of a marker-free string are marker-free, and consecutive
      slices join up. */
  lemma SliceJoin(w: string, i: nat, m: nat, e: nat)
    requires Esc !in w && i <= m <= e <= |w|
    ensures Esc !in w[i..m] && Esc !in w[m..e]
    ensures w[i..m] + (w[m..e] + w[e..]) == w[i..]
  {
    assert forall c | c in w[i..m] :: c in w;
    assert forall c | c in w[m..e] :: c in w;
  }

  /** The step of StripWrap: given the result for the matches after the
      first, the result for all of them. */
  lemma StripWrapStep(w: string, i: nat, ms: seq<nat>, n: nat)
    requires Esc !in w
    requires i <= |w| && ms != []
    requires forall k | 0 <= k < |ms| :: i <= ms[k] && ms[k] + n <= |w|
    requires Spaced(ms, n)
    requires ms[0] + n <= |w| && Spaced(ms[1..], n)
    requires forall k | 0 <= k < |ms| - 1 :: ms[0] + n <= ms[1..][k] && ms[1..][k] + n <= |w|
    requires StripMarkers(Wrap(w, ms[0] + n, ms[1..], n)) == w[ms[0] + n..]
    requires CountHighlights(Wrap(w, ms[0] + n, ms[1..], n)) == |ms| - 1
    ensures StripMarkers(Wrap(w, i, ms, n)) == w[i..]
    ensures CountHighlights(Wrap(w, i, ms, n)) == |ms|
  {
    var m := ms[0];
    WrapStep(w, i, ms, n);
    SliceJoin(w, i, m, m + n);
    StripSegment(w[i..m], w[m..m + n], Wrap(w, m + n, ms[1..], n));
  }

  /** Removing the markers from a wrapped window gives the window back, and
      there is one `Highlight` per match. */
  lemma {:induction false} StripWrap(w: string, i: nat, ms: seq<nat>, n: nat)
    requires Esc !in w
    requires i <= |w|
    requires forall k | 0 <= k < |ms| :: i <= ms[k] && ms[k] + n <= |w|
    requires Spaced(ms, n)
    ensures StripMarkers(Wrap(w, i, ms, n)) == w[i..]
    ensures CountHighlights(Wrap(w, i, ms, n)) == |ms|
    decreases |ms|
  {
    if ms == [] {
      StripPlain(w[i..], []);
      assert w[i..] + [] == w[i..];
    } else {
      WrapStep(w, i, ms, n);
      StripWrap(w, ms[0] + n, ms[1..], n);
      StripWrapStep(w, i, ms, n);
    }
  }

  /** The window `text[start:end]` around a match at `p` of length `n`:
      `radius` characters on each side, clamped to the text. */
  function Window(p: nat, n: nat, radius: nat, len: nat): (r: (nat, nat))
    requires p + n <= len
    ensures r.0 <= p && p + n <= r.1 <= len
    ensures r.1 - r.0 <= n + 2 * radius
    ensures r.0 == 0 || r.0 == p - radius
    ensures r.1 == len || r.1 == p + n + radius
    ensures r.0 == 0 <==> p <= radius
    ensures r.1 == len <==> len <= p + n + radius
  {
    (Max(p - radius, 0), Min(p + n + radius, len))
  }

  /** The highlighted window around the match at `p`. */
  function Snippet(text: string, term: string, radius: nat, p: nat): string
    requires p + |term| <= |text|
  {
    var window := Window(p, |term|, radius, |text|);
    HighlightTerm(text[window.0..window.1], term)
  }

  /** What `extract_text_with_context` returns: one snippet per
      `re.finditer` match of the lowered term in the lowered text, in
      order. */
  function Snippets(text: string, searchTerm: string, radius: nat): (r: seq<string>)
    ensures |r| == |Matches(Lower(text), Lower(searchTerm))|
  {
    var ms := Matches(Lower(text), Lower(searchTerm));
    seq(|ms|, k requires 0 <= k < |ms| =>
      assert OccursAt(Lower(text), Lower(searchTerm), ms[k]);
      Snippet(text, searchTerm, radius, ms[k]))
  }

  /** The `k`th snippet is the one around the `k`th match. */
  lemma SnippetAt(text: string, searchTerm: string, radius: nat, k: nat)
    requires k < |Matches(Lower(text), Lower(searchTerm))|
    ensures var p := Matches(Lower(text), Lower(searchTerm))[k];
            && p + |searchTerm| <= |text|
            && Snippets(text, searchTerm, radius)[k] == Snippet(text, searchTerm, radius, p)
  {
    var p := Matches(Lower(text), Lower(searchTerm))[k];
    assert OccursAt(Lower(text), Lower(searchTerm), p);
  }

  /** `extract_text_with_context`. */
  method ExtractTextWithContext(text: string, searchTerm: string, radius: nat) returns (snippets: seq<string>)
    ensures snippets == Snippets(text, searchTerm, radius)
  {
    snippets := [];
    var textLower := Lower(text);
    var termLower := Lower(searchTerm);
    var ms := Matches(textLower, termLower);
    ghost var all := Snippets(text, searchTerm, radius);
    for k := 0 to |ms|
      invariant snippets == all[..k]
    {
      var start := Max(ms[k] - radius, 0);
      var end := Min(ms[k] + |termLower| + radius, |text|);
      SnippetAt(text, searchTerm, radius, k);
      var snippet := text[start..end];
      assert all[..k + 1] == all[..k] + [all[k]];
      snippets := snippets + [HighlightTerm(snippet, searchTerm)];
    }
    assert all[..|ms|] == all;
  }

  /** The result is empty exactly when the term does not occur in the text,
      ignoring case (for the empty term it never is). */
  lemma SnippetsEmptyIff(text: string, searchTerm: string, radius: nat)
    ensures Snippets(text, searchTerm, radius) == [] <==> !Contains(Lower(text), Lower(searchTerm))
  {
    MatchesEmptyIff(Lower(text), Lower(searchTerm));
  }

  /** Lowering commutes with slicing. */
  lemma LowerSlice(s: string, a: nat, b: nat)
    requires a <= b <= |s|
    ensures Lower(s[a..b]) == Lower(s)[a..b]
  {
  }

  /** An occurrence inside `s[a..b]` is an occurrence in the slice. */
  lemma OccursInSlice(s: string, t: string, a: nat, b: nat, p: nat)
    requires a <= p && p + |t| <= b <= |s| && OccursAt(s, t, p)
    ensures OccursAt(s[a..b], t, p - a)
  {
    var u, q := s[a..b], p - a;
    assert forall j | 0 <= j < |t| :: t[j] == s[p..p + |t|][j] == u[q + j];
    assert u[q..q + |t|] == t;
  }

  /** With the markers removed, a snippet is exactly the window sliced from
      the original text, so its case is kept; it holds at least one
      highlighted occurrence, one per match in the window. */
  lemma SnippetContents(text: string, searchTerm: string, radius: nat, p: nat)
    requires Esc !in text
    requires OccursAt(Lower(text), Lower(searchTerm), p)
    ensures var (start, end) := Window(p, |searchTerm|, radius, |text|);
            var t := Lower(searchTerm);
            && StripMarkers(Snippet(text, searchTerm, radius, p)) == text[start..end]
            && CountHighlights(Snippet(text, searchTerm, radius, p)) == |Matches(Lower(text[start..end]), t)|
            && CountHighlights(Snippet(text, searchTerm, radius, p)) >= 1
            && Covered(Matches(Lower(text[start..end]), t), |t|, p - start)
  {
    var (start, end) := Window(p, |searchTerm|, radius, |text|);
    var w := text[start..end];
    var t := Lower(searchTerm);
    assert Esc !in w by {
      assert forall c | c in w :: c in text;
    }
    StripWrap(w, 0, Matches(Lower(w), t), |t|);
    assert w[0..] == w;
    LowerSlice(text, start, end);
    OccursInSlice(Lower(text), t, start, end, p);
    MatchesComplete(Lower(w), t, p - start);
  }

  /** No occurrence of the term is left unmarked: each lies inside some
      match `k`, which sits between a `Highlight` and a `Reset`, shifted by
      the `k` marker pairs before it. */
  lemma HighlightTermCovers(w: string, term: string, q: nat)
    requires OccursAt(Lower(w), Lower(term), q)
    ensures var ms := Matches(Lower(w), Lower(term));
            exists k | 0 <= k < |ms| ::
              && ms[k] <= q < ms[k] + Max(|term|, 1)
              && ms[k] + |term| <= |w|
              && PlacedAt(HighlightTerm(w, term), ms[k] + 9 * k, Highlight + w[ms[k]..ms[k] + |term|] + Reset)
  {
    var ms := Matches(Lower(w), Lower(term));
    MatchesComplete(Lower(w), Lower(term), q);
    var k :| 0 <= k < |ms| && ms[k] <= q < ms[k] + Max(|Lower(term)|, 1);
    HighlightTermAt(w, term, k);
  }
}
