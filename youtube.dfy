/**
 * The text part of `get_latest_video` (src/youtube.py): once the feed has
 * been fetched, three regular-expression searches pick the first `<entry>`
 * block and, inside it, the video id and the title. The feed is not parsed
 * as Atom; the model follows the regular expressions.
 */
module Youtube {
  import opened Wrappers
  import opened Text

  /**
   * The two pattern shapes used by the scraper: `open(.*?)close`, where `.`
   * crosses a newline only under DOTALL, and `open([^<]+)close`.
   */
  datatype Pattern =
    | Lazy(open: string, close: string, dotAll: bool)
    | NoLt(open: string, close: string)

  /** `<entry>(.*?)</entry>` searched with `re.DOTALL`. */
  const EntryPattern := Lazy("<entry>", "</entry>", true)
  /** `<yt:videoId>(.*?)</yt:videoId>`. */
  const VideoIdPattern := Lazy("<yt:videoId>", "</yt:videoId>", false)
  /** `<title>([^<]+)</title>`. */
  const TitlePattern := NoLt("<title>", "</title>")

  /**
   * A pattern the greedy `[^<]+` engine below handles exactly: its closing
   * text begins with `<`, so the run cannot be followed by it anywhere but
   * at the first `<`.
   */
  predicate WellFormed(p: Pattern) {
    p.NoLt? ==> p.close != [] && p.close[0] == '<'
  }

  /** The position where a match started at `a` begins its group. */
  function GroupStart(p: Pattern, a: nat): nat {
    a + |p.open|
  }

  /**
   * What the regular expression accepts: a match that starts at `a` and
   * whose group ends at `e`. For `.*?` the group is the shortest that is
   * followed by the closing text; for `[^<]+` it is the longest.
   */
  ghost predicate MatchesAt(s: string, p: Pattern, a: nat, e: nat) {
    var g := GroupStart(p, a);
    && OccursAt(s, p.open, a)
    && g <= e
    && OccursAt(s, p.close, e)
    && match p
       case Lazy(_, close, dotAll) =>
         && (forall k: nat :: g <= k < e ==> !OccursAt(s, close, k))
         && (dotAll || '\n' !in s[g..e])
       case NoLt(_, close) =>
         && g < e
         && '<' !in s[g..e]
         && (forall k: nat :: e < k <= |s| && '<' !in s[g..k] ==> !OccursAt(s, close, k))
  }

  /** Lazy `.*?` then `close`: the first `k` from which `close` follows. */
  function ShortestUntil(s: string, close: string, dotAll: bool, k: nat): (r: Option<nat>)
    requires k <= |s|
    decreases |s| - k
    ensures r.Some? ==> k <= r.value && OccursAt(s, close, r.value)
    ensures r.Some? ==> forall m: nat :: k <= m < r.value ==> !OccursAt(s, close, m)
    ensures r.Some? ==> dotAll || '\n' !in s[k..r.value]
    ensures r.None? ==> forall e: nat :: k <= e <= |s| && (dotAll || '\n' !in s[k..e]) ==> !OccursAt(s, close, e)
  {
    if OccursAt(s, close, k) then Some(k)
    else if k == |s| || (!dotAll && s[k] == '\n') then None
    else
      var r := ShortestUntil(s, close, dotAll, k + 1);
      assert r.Some? ==> s[k..r.value] == [s[k]] + s[k + 1..r.value];
      assert forall e: nat :: k < e <= |s| ==> s[k..e] == [s[k]] + s[k + 1..e];
      r
  }

  /** The first `<` at or after `k`, or the end of the text. */
  function NextLt(s: string, k: nat): (c: nat)
    requires k <= |s|
    decreases |s| - k
    ensures k <= c <= |s|
    ensures c < |s| ==> s[c] == '<'
    ensures '<' !in s[k..c]
  {
    if k == |s| || s[k] == '<' then k
    else
      var c := NextLt(s, k + 1);
      assert s[k..c] == [s[k]] + s[k + 1..c];
      c
  }

  /**
   * A run of characters other than `<` that starts at `g` ends at the first
   * `<` after `g`: every longer stretch holds a `<`, every shorter one ends
   * on a character that is not `<`.
   */
  lemma FirstLtEndsRun(s: string, g: nat, c: nat)
    requires g <= c <= |s| && '<' !in s[g..c] && (c < |s| ==> s[c] == '<')
    ensures forall k: nat :: c < k <= |s| ==> '<' in s[g..k]
    ensures forall k: nat :: g <= k < c ==> s[k] != '<'
  {
    forall k: nat | c < k <= |s| ensures '<' in s[g..k] {
      assert s[g..k][c - g] == s[c];
    }
    forall k: nat | g <= k < c ensures s[k] != '<' {
      assert s[g..c][k - g] == s[k];
    }
  }

  /** The engine at one start position: where the group ends, if the match succeeds there. */
  function MatchAt(s: string, p: Pattern, a: nat): (r: Option<nat>)
    requires WellFormed(p) && a <= |s|
    ensures r.Some? ==> MatchesAt(s, p, a, r.value)
    ensures r.None? ==> forall e: nat :: !MatchesAt(s, p, a, e)
  {
    if !OccursAt(s, p.open, a) then None
    else
      var g := GroupStart(p, a);
      match p
      case Lazy(_, close, dotAll) => ShortestUntil(s, close, dotAll, g)
      case NoLt(_, close) =>
        var c := NextLt(s, g);
        FirstLtEndsRun(s, g, c);
        assert forall k: nat :: g <= k < c ==> !OccursAt(s, close, k) by {
          forall k: nat | g <= k < c ensures !OccursAt(s, close, k) {
            assert s[k] != close[0];
          }
        }
        if g < c && OccursAt(s, close, c) then Some(c) else None
  }

  /** Where a search found its match: the start and the end of group 1. */
  datatype Found = Found(start: nat, end: nat)

  /** `re.search` from position `a`: the leftmost start at which the pattern matches. */
  function SearchFrom(s: string, p: Pattern, a: nat): (r: Option<Found>)
    requires WellFormed(p) && a <= |s|
    decreases |s| - a
    ensures r.Some? ==> a <= r.value.start && MatchesAt(s, p, r.value.start, r.value.end)
    ensures forall b: nat, e: nat :: a <= b && (r.None? || b < r.value.start) ==> !MatchesAt(s, p, b, e)
  {
    match MatchAt(s, p, a)
    case Some(e) => Some(Found(a, e))
    case None => if a == |s| then None else SearchFrom(s, p, a + 1)
  }

  /** `re.search(pattern, s)`. */
  function Search(s: string, p: Pattern): (r: Option<Found>)
    requires WellFormed(p)
    ensures r.Some? ==> MatchesAt(s, p, r.value.start, r.value.end)
    ensures forall b: nat, e: nat :: (r.None? || b < r.value.start) ==> !MatchesAt(s, p, b, e)
  {
    SearchFrom(s, p, 0)
  }

  /** `match.group(1)`. */
  function Group(s: string, p: Pattern, f: Found): (g: string)
    requires GroupStart(p, f.start) <= f.end <= |s|
    ensures MatchesAt(s, p, f.start, f.end) ==> s[f.start..f.end + |p.close|] == p.open + g + p.close
  {
    s[GroupStart(p, f.start)..f.end]
  }

  /** For each pattern, what the engine finds at a start position is the only match there. */
  lemma MatchesAtUnique(s: string, p: Pattern, a: nat, e1: nat, e2: nat)
    requires MatchesAt(s, p, a, e1) && MatchesAt(s, p, a, e2)
    ensures e1 == e2
  {
  }

  /**
   * A match at `a`, with no opening text anywhere before `a`, is the one
   * `re.search` returns.
   */
  lemma SearchFindsFirst(s: string, p: Pattern, a: nat, e: nat)
    requires WellFormed(p) && MatchesAt(s, p, a, e)
    requires forall k: nat :: k < a ==> !OccursAt(s, p.open, k)
    ensures Search(s, p) == Some(Found(a, e))
  {
    var r := Search(s, p);
    assert r.Some? && r.value.start == a;
    MatchesAtUnique(s, p, a, r.value.end, e);
  }

  /** The opening text written after `pre` is the first one when `pre` holds none. */
  lemma OpenIsFirst(pre: string, rest: string, open: string)
    requires Free(pre, open) && NoBorder(open)
    ensures forall k: nat :: k < |pre| ==> !OccursAt(pre + open + rest, open, k)
  {
    FirstOccurrenceAfter([], pre, open, rest);
    assert [] + pre + open + rest == pre + open + rest;
  }

  /** In `pre + open + u + close + q` a lazy pattern matches at `|pre|` with group `u`. */
  lemma LazyMatchesWritten(pre: string, u: string, q: string, p: Pattern)
    requires p.Lazy? && NoBorder(p.close) && Free(u, p.close) && (p.dotAll || '\n' !in u)
    ensures MatchesAt(pre + p.open + u + p.close + q, p, |pre|, |pre| + |p.open| + |u|)
  {
    var s := pre + p.open + u + p.close + q;
    FirstOccurrenceAfter(pre + p.open, u, p.close, q);
    assert s[|pre|..|pre| + |p.open|] == p.open;
    assert s[|pre| + |p.open|..|pre| + |p.open| + |u|] == u;
  }

  /** In `pre + open + u + close + q` the `[^<]+` pattern matches at `|pre|` with group `u`. */
  lemma RunMatchesWritten(pre: string, u: string, q: string, p: Pattern)
    requires p.NoLt? && WellFormed(p) && u != [] && '<' !in u
    ensures MatchesAt(pre + p.open + u + p.close + q, p, |pre|, |pre| + |p.open| + |u|)
  {
    var s := pre + p.open + u + p.close + q;
    var g := |pre| + |p.open|;
    var e := g + |u|;
    assert s[|pre|..g] == p.open;
    assert s[g..e] == u;
    assert s[e..e + |p.close|] == p.close;
    forall k: nat | e < k <= |s| ensures '<' in s[g..k] {
      assert s[g..k][e - g] == s[e] == '<';
    }
  }

  /**
   * A lazy pattern finds the first opening text and the first closing text
   * after it: in `pre + open + u + close + q` with no opening text in `pre`,
   * no closing text in `u` and (without DOTALL) no newline in `u`, the
   * search matches at `|pre|` and its group is `u`.
   */
  lemma SearchFindsLazy(pre: string, u: string, q: string, p: Pattern)
    requires p.Lazy? && NoBorder(p.open) && NoBorder(p.close)
    requires Free(pre, p.open) && Free(u, p.close) && (p.dotAll || '\n' !in u)
    ensures var s := pre + p.open + u + p.close + q;
      var f := Found(|pre|, |pre| + |p.open| + |u|);
      Search(s, p) == Some(f) && Group(s, p, f) == u
  {
    var s := pre + p.open + u + p.close + q;
    OpenIsFirst(pre, u + p.close + q, p.open);
    assert pre + p.open + (u + p.close + q) == s;
    LazyMatchesWritten(pre, u, q, p);
    SearchFindsFirst(s, p, |pre|, |pre| + |p.open| + |u|);
  }

  /**
   * The `[^<]+` pattern finds the first opening text followed by a non-empty
   * run without `<` and the closing text (which begins with `<`).
   */
  lemma SearchFindsRun(pre: string, u: string, q: string, p: Pattern)
    requires p.NoLt? && WellFormed(p) && NoBorder(p.open)
    requires Free(pre, p.open) && u != [] && '<' !in u
    ensures var s := pre + p.open + u + p.close + q;
      var f := Found(|pre|, |pre| + |p.open| + |u|);
      Search(s, p) == Some(f) && Group(s, p, f) == u
  {
    var s := pre + p.open + u + p.close + q;
    OpenIsFirst(pre, u + p.close + q, p.open);
    assert pre + p.open + (u + p.close + q) == s;
    RunMatchesWritten(pre, u, q, p);
    SearchFindsFirst(s, p, |pre|, |pre| + |p.open| + |u|);
  }

  /** The six tags begin with a `<` that appears nowhere else in them. */
  lemma TagsHaveNoBorder()
    ensures NoBorder(EntryPattern.open) && NoBorder(EntryPattern.close)
    ensures NoBorder(VideoIdPattern.open) && NoBorder(VideoIdPattern.close)
    ensures NoBorder(TitlePattern.open)
  {
    HeadOnceNoBorder(EntryPattern.open);
    HeadOnceNoBorder(EntryPattern.close);
    HeadOnceNoBorder(VideoIdPattern.open);
    HeadOnceNoBorder(VideoIdPattern.close);
    HeadOnceNoBorder(TitlePattern.open);
  }

  /**
   * `g` is group 1 of the leftmost match of `p` in `s`: the match starts at
   * `a`, no match starts before `a`, and `g` lies between the opening text
   * and the closing text of that match.
   */
  ghost predicate IsLeftmostGroup(s: string, p: Pattern, g: string) {
    exists a: nat, e: nat ::
      && MatchesAt(s, p, a, e)
      && (forall b: nat, e2: nat :: b < a ==> !MatchesAt(s, p, b, e2))
      && g == s[GroupStart(p, a)..e]
  }

  /** The latest video of a feed, as `get_latest_video` returns it. */
  datatype Video = Video(videoId: string, title: string)

  /**
   * The two searches inside one entry block: group 1 of the leftmost match
   * of each pattern, `None` when either pattern finds nothing.
   */
  function EntryFields(body: string): (r: Option<Video>)
    ensures r.Some? <==> (exists a: nat, e: nat :: MatchesAt(body, VideoIdPattern, a, e))
                         && (exists a: nat, e: nat :: MatchesAt(body, TitlePattern, a, e))
    ensures r.Some? ==> IsLeftmostGroup(body, VideoIdPattern, r.value.videoId)
    ensures r.Some? ==> IsLeftmostGroup(body, TitlePattern, r.value.title)
    ensures r.Some? ==> '\n' !in r.value.videoId
    ensures r.Some? ==> r.value.title != [] && '<' !in r.value.title
  {
    match (Search(body, VideoIdPattern), Search(body, TitlePattern))
    case (Some(id), Some(title)) =>
      Some(Video(Group(body, VideoIdPattern, id), Group(body, TitlePattern, title)))
    case _ => None
  }

  /**
   * The extraction after the HTTP request: the first entry block, then the
   * first video id and the first title inside it; `None` stands for the
   * `(None, None)` the source returns when any of the three is missing.
   */
  function LatestVideo(feed: string): (r: Option<Video>)
    ensures (forall a: nat, e: nat :: !MatchesAt(feed, EntryPattern, a, e)) ==> r.None?
    ensures r.Some? ==> '\n' !in r.value.videoId
    ensures r.Some? ==> r.value.title != [] && '<' !in r.value.title
  {
    match Search(feed, EntryPattern)
    case None => None
    case Some(entry) => EntryFields(Group(feed, EntryPattern, entry))
  }

  /**
   * Only the first entry is read: when `body` is the first entry block of
   * the feed, the result is what the two searches find in `body`, whatever
   * follows the block.
   */
  lemma FirstEntryDecides(pre: string, body: string, post: string)
    requires Free(pre, EntryPattern.open) && Free(body, EntryPattern.close)
    ensures LatestVideo(pre + EntryPattern.open + body + EntryPattern.close + post) == EntryFields(body)
  {
    TagsHaveNoBorder();
    SearchFindsLazy(pre, body, post, EntryPattern);
  }

  /** A first entry without a video id tag or without a title tag gives `(None, None)`. */
  lemma MissingFieldGivesNone(pre: string, body: string, post: string)
    requires Free(pre, EntryPattern.open) && Free(body, EntryPattern.close)
    requires Free(body, VideoIdPattern.open) || Free(body, TitlePattern.open)
    ensures LatestVideo(pre + EntryPattern.open + body + EntryPattern.close + post) == None
  {
    FirstEntryDecides(pre, body, post);
    if Free(body, VideoIdPattern.open) {
      assert forall a: nat, e: nat :: !MatchesAt(body, VideoIdPattern, a, e);
    } else {
      assert forall a: nat, e: nat :: !MatchesAt(body, TitlePattern, a, e);
    }
  }

  /**
   * Round trip: a feed whose first entry carries the video id `v` and the
   * title `t` yields `(v, t)`, provided `v` has no newline and no closing
   * id tag and `t` is non-empty without `<` (what the two patterns admit).
   */
  lemma LatestVideoOfWrittenEntry(pre: string, body: string, post: string,
                                  x: string, v: string, y: string,
                                  x2: string, t: string, y2: string)
    requires Free(pre, EntryPattern.open) && Free(body, EntryPattern.close)
    requires body == x + VideoIdPattern.open + v + VideoIdPattern.close + y
    requires Free(x, VideoIdPattern.open) && Free(v, VideoIdPattern.close) && '\n' !in v
    requires body == x2 + TitlePattern.open + t + TitlePattern.close + y2
    requires Free(x2, TitlePattern.open) && t != [] && '<' !in t
    ensures LatestVideo(pre + EntryPattern.open + body + EntryPattern.close + post) == Some(Video(v, t))
  {
    TagsHaveNoBorder();
    FirstEntryDecides(pre, body, post);
    SearchFindsLazy(x, v, y, VideoIdPattern);
    SearchFindsRun(x2, t, y2, TitlePattern);
  }

  /**
   * `get_latest_video` given the outcome of the HTTP request: `None` when the
   * request raised or answered with an error status.
   */
  function GetLatestVideo(response: Option<string>): (r: Option<Video>)
    ensures response.None? ==> r.None?
    ensures response.Some? ==> r == LatestVideo(response.value)
  {
    match response
    case None => None
    case Some(text) => LatestVideo(text)
  }
}
