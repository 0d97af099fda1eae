/**
 * The channel-id cache of src/channel_cache.py: `resolve_channel_id` turns a
 * channel reference typed by a user (a `/channel/` URL or an `@handle` URL)
 * into a YouTube channel id, asks the YouTube Data API at most when the
 * reference is new, and keeps every success in a JSON file forever.
 *
 * The two API requests are oracles: a function from the handle to what the
 * request gave back. The cache file is a value that is absent, a stored
 * map, corrupt, or unreadable.
 */
module ChannelCache {
  import opened Wrappers
  import opened Text

  /** data/cache_channel_ids.json as `load_cache` finds it. */
  datatype CacheFile =
    | Absent                                  // no file yet
    | Stored(entries: map<string, string>)    // a JSON object: reference -> channel id
    | Corrupt                                 // the JSON does not decode
    | Unreadable                              // any other read error, which is not caught

  /**
   * `load_cache`: a missing or corrupt file reads as the empty cache; `None`
   * stands for the read error it lets escape.
   */
  function LoadCache(file: CacheFile): (r: Option<map<string, string>>)
    ensures file.Stored? ==> r == Some(file.entries)
    ensures file.Absent? || file.Corrupt? ==> r == Some(map[])
    ensures r.None? <==> file.Unreadable?
  {
    match file
    case Absent => Some(map[])
    case Stored(entries) => Some(entries)
    case Corrupt => Some(map[])
    case Unreadable => None
  }

  /** What one YouTube Data API request (`requests.get(...).json()`) gave back. */
  datatype Reply =
    | RequestFailed            // the request or its JSON decoding raised: caught
    | NoItems                  // "items" is missing or empty
    | FirstItem(id: string)    // the first item carries this channel id (maybe "")
    | MalformedItem            // the first item lacks the id field: the KeyError escapes

  /** An API request that was made: the handle lookup or the fallback search. */
  datatype Lookup = ForHandle(handle: string) | SearchChannel(handle: string)

  /** The outcome of `resolve_channel_id`: an id, `None`, or an exception. */
  datatype Resolution = Resolved(id: string) | NotResolved | Raised

  const DirectMarker := "/channel/"
  const HandleMarker := "@"

  /**
   * The channel id written in a `/channel/` reference: `url.split("/channel/")[-1]`,
   * a suffix that follows an occurrence of the marker and holds none.
   */
  function DirectId(url: string): (r: string)
    ensures |r| <= |url| && r == url[|url| - |r|..] && Free(r, DirectMarker)
    ensures Contains(url, DirectMarker) ==>
              |r| + |DirectMarker| <= |url| && url[|url| - |r| - |DirectMarker|..|url| - |r|] == DirectMarker
    ensures !Contains(url, DirectMarker) ==> r == url
  {
    var r := SplitTail(url, DirectMarker);
    SplitTailIsFree(url, DirectMarker);
    r
  }

  /** The handle of an `@` reference: `url.split("@")[-1]`, the text after the last `@`. */
  function HandleOf(url: string): (r: string)
    ensures |r| <= |url| && r == url[|url| - |r|..] && '@' !in r
    ensures Contains(url, HandleMarker) ==> |r| < |url| && url[|url| - |r| - 1] == '@'
    ensures !Contains(url, HandleMarker) ==> r == url
  {
    var h := SplitTail(url, HandleMarker);
    SplitTailIsFree(url, HandleMarker);
    assert forall i | 0 <= i < |h| :: h[i] != '@' by {
      forall i | 0 <= i < |h| ensures h[i] != '@' {
        assert !OccursAt(h, HandleMarker, i);
        assert h[i..i + 1] == [h[i]];
      }
    }
    if Contains(url, HandleMarker) then
      assert OccursAt(url, HandleMarker, |url| - |h| - 1);
      h
    else h
  }

  /** A reply's channel id, "" (falsy in Python) when it carries none. */
  function ReplyId(reply: Reply): string {
    if reply.FirstItem? then reply.id else ""
  }

  /** Whether the fallback search runs after the handle lookup gave `primary`. */
  predicate NeedsSearch(primary: Reply) {
    (primary.NoItems? || primary.FirstItem?) && ReplyId(primary) == ""
  }

  /** The outcome of the two API steps (lines 83-115). */
  function LookupOutcome(primary: Reply, fallback: Reply): (r: Resolution)
    ensures r.Resolved? ==> r.id != ""
    ensures r.Resolved? && !NeedsSearch(primary) ==> r.id == ReplyId(primary)
    ensures r.Resolved? && NeedsSearch(primary) ==> r.id == ReplyId(fallback)
    ensures r == Raised <==> primary.MalformedItem? || (NeedsSearch(primary) && fallback.MalformedItem?)
    ensures primary.FirstItem? && primary.id != "" ==> r == Resolved(primary.id)
    ensures NeedsSearch(primary) && fallback.FirstItem? && fallback.id != "" ==> r == Resolved(fallback.id)
    ensures r == NotResolved <==>
              primary.RequestFailed? || (NeedsSearch(primary) && (fallback.RequestFailed? || fallback.NoItems? || fallback == FirstItem("")))
  {
    match primary
    case RequestFailed => NotResolved
    case MalformedItem => Raised
    case _ =>
      if ReplyId(primary) != "" then Resolved(ReplyId(primary))
      else
        match fallback
        case RequestFailed => NotResolved
        case MalformedItem => Raised
        case _ => if ReplyId(fallback) != "" then Resolved(ReplyId(fallback)) else NotResolved
  }

  /** The requests made for a handle: the handle lookup, then the search only if needed. */
  function LookupsMade(handle: string, primary: Reply): (calls: seq<Lookup>)
    ensures |calls| == if NeedsSearch(primary) then 2 else 1
    ensures calls[0] == ForHandle(handle)
    ensures |calls| == 2 ==> calls[1] == SearchChannel(handle)
  {
    if NeedsSearch(primary) then [ForHandle(handle), SearchChannel(handle)] else [ForHandle(handle)]
  }

  /**
   * The contract of `resolve_channel_id(url)`: from the cache file `before`,
   * the API key and the two request oracles, the result `r`, the requests
   * made and the cache file `after`. The decision chain is the source's:
   * cache hit, direct id, handle, API key, lookup then search; only a
   * success writes the file, and it writes the loaded cache plus one entry.
   */
  ghost predicate Resolves(before: CacheFile, url: string, apiKey: string,
                           forHandle: string -> Reply, search: string -> Reply,
                           r: Resolution, calls: seq<Lookup>, after: CacheFile)
  {
    match LoadCache(before)
    case None => r == Raised && calls == [] && after == before
    case Some(cache) =>
      if url in cache then
        r == Resolved(cache[url]) && calls == [] && after == before
      else if Contains(url, DirectMarker) then
        r == Resolved(DirectId(url)) && calls == [] && after == Stored(cache[url := DirectId(url)])
      else if !Contains(url, HandleMarker) || apiKey == "" then
        r == NotResolved && calls == [] && after == before
      else
        var handle := HandleOf(url);
        && calls == LookupsMade(handle, forHandle(handle))
        && r == LookupOutcome(forHandle(handle), search(handle))
        && after == if r.Resolved? then Stored(cache[url := r.id]) else before
  }

  /** The cache file shared by every resolution. */
  class IdCache {
    var file: CacheFile

    constructor (file: CacheFile)
      ensures this.file == file
    {
      this.file := file;
    }

    /** `save_cache`: the file now holds exactly `cache`. */
    method SaveCache(cache: map<string, string>)
      modifies this
      ensures file == Stored(cache)
      ensures LoadCache(file) == Some(cache)
    {
      file := Stored(cache);
    }

    /**
     * `resolve_channel_id(url)`. `apiKey` is YOUTUBE_API_KEY ("" when unset);
     * `forHandle` and `search` answer the two API requests.
     */
    method Resolve(url: string, apiKey: string, forHandle: string -> Reply, search: string -> Reply)
      returns (r: Resolution, calls: seq<Lookup>)
      modifies this
      ensures Resolves(old(file), url, apiKey, forHandle, search, r, calls, file)
    {
      calls := [];
      var loaded := LoadCache(file);
      if loaded.None? {
        return Raised, calls;
      }
      var cache := loaded.value;
      if url in cache {
        return Resolved(cache[url]), calls;
      }
      if Contains(url, DirectMarker) {
        var channelId := DirectId(url);
        cache := cache[url := channelId];
        SaveCache(cache);
        return Resolved(channelId), calls;
      }
      if !Contains(url, HandleMarker) {
        return NotResolved, calls;
      }
      var handle := HandleOf(url);
      if apiKey == "" {
        return NotResolved, calls;
      }
      calls := calls + [ForHandle(handle)];
      var response := forHandle(handle);
      if response.RequestFailed? {
        return NotResolved, calls;
      }
      if response.MalformedItem? {
        return Raised, calls;
      }
      var channelId := ReplyId(response);
      if channelId == "" {
        calls := calls + [SearchChannel(handle)];
        var found := search(handle);
        if found.RequestFailed? {
          return NotResolved, calls;
        }
        if found.MalformedItem? {
          return Raised, calls;
        }
        channelId := ReplyId(found);
      }
      if channelId == "" {
        return NotResolved, calls;
      }
      cache := cache[url := channelId];
      SaveCache(cache);
      r := Resolved(channelId);
    }
  }

  /**
   * Resolving the same reference again after a success gives the same id
   * from the cache: no request, no write, whatever the key and the API say.
   */
  lemma SecondResolveHitsCache(f0: CacheFile, url: string, key0: string, fh0: string -> Reply, s0: string -> Reply,
                               id: string, calls0: seq<Lookup>, f1: CacheFile,
                               key1: string, fh1: string -> Reply, s1: string -> Reply,
                               r: Resolution, calls1: seq<Lookup>, f2: CacheFile)
    requires Resolves(f0, url, key0, fh0, s0, Resolved(id), calls0, f1)
    requires Resolves(f1, url, key1, fh1, s1, r, calls1, f2)
    ensures r == Resolved(id) && calls1 == [] && f2 == f1
  {
    var cache :| LoadCache(f0) == Some(cache);
    assert LoadCache(f1).Some? && url in LoadCache(f1).value && LoadCache(f1).value[url] == id;
  }

  /** A resolution that does not succeed leaves the cache file as it was. */
  lemma FailureCachesNothing(before: CacheFile, url: string, apiKey: string, fh: string -> Reply, s: string -> Reply,
                             r: Resolution, calls: seq<Lookup>, after: CacheFile)
    requires Resolves(before, url, apiKey, fh, s, r, calls, after)
    requires !r.Resolved?
    ensures after == before
  {
  }

  /**
   * A success leaves exactly the loaded cache plus the entry `url -> id`:
   * every other entry is kept.
   */
  lemma SuccessAddsOneEntry(before: CacheFile, url: string, apiKey: string, fh: string -> Reply, s: string -> Reply,
                            id: string, calls: seq<Lookup>, after: CacheFile)
    requires Resolves(before, url, apiKey, fh, s, Resolved(id), calls, after)
    ensures LoadCache(before).Some?
    ensures LoadCache(after) == Some(LoadCache(before).value[url := id])
  {
    var cache := LoadCache(before).value;
    if url in cache {
      assert cache[url := id] == cache;
    }
  }

  /**
   * A `/channel/` reference that is not cached is answered without any
   * request, with or without an API key, by the last piece of the
   * left-to-right split on `/channel/`.
   */
  lemma DirectIdNeedsNoRequest(before: CacheFile, url: string, apiKey: string, fh: string -> Reply, s: string -> Reply,
                               r: Resolution, calls: seq<Lookup>, after: CacheFile)
    requires Resolves(before, url, apiKey, fh, s, r, calls, after)
    requires LoadCache(before).Some? && url !in LoadCache(before).value && Contains(url, DirectMarker)
    ensures calls == [] && r == Resolved(DirectId(url))
    ensures Free(DirectId(url), DirectMarker)
    ensures |DirectId(url)| + |DirectMarker| <= |url|
    ensures url[|url| - |DirectId(url)| - |DirectMarker|..] == DirectMarker + DirectId(url)
  {
    var id := DirectId(url);
    var at := |url| - |id| - |DirectMarker|;
    assert url[at..] == url[at..at + |DirectMarker|] + url[|url| - |id|..];
  }

  /**
   * The handle looked up is the text after the last `@` of the reference,
   * and the search runs only when the handle lookup gave no id.
   */
  lemma HandleLookupOrder(before: CacheFile, url: string, apiKey: string, fh: string -> Reply, s: string -> Reply,
                          r: Resolution, calls: seq<Lookup>, after: CacheFile)
    requires Resolves(before, url, apiKey, fh, s, r, calls, after)
    requires calls != []
    ensures Contains(url, HandleMarker) && apiKey != ""
    ensures var h := HandleOf(url);
      && '@' !in h && |h| < |url| && url[|url| - |h| - 1] == '@' && url[|url| - |h|..] == h
      && calls[0] == ForHandle(h)
      && (|calls| == 2 <==> NeedsSearch(fh(h)))
      && (|calls| == 2 ==> calls[1] == SearchChannel(h))
  {
  }
}
