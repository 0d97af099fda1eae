# Discord monitor bot: a verified model of its core

The bot polls YouTube channels on a timer and posts to a Discord webhook when a
channel has a new upload. It keeps its channel list and its last-seen video
ids in SQLite (`src/db.py`), and an older JSON store of last-seen ids
(`src/storage.py`). It resolves `@handle` and `/channel/` URLs into channel
ids through a JSON cache (`src/channel_cache.py`), and reads the newest
video of a feed with three regular expressions (`src/youtube.py`). A small
CLI (`src/manage.py`) adds and edits channels and writes their webhook urls
into `.env`.

This project models those parts in Dafny and proves what they promise.

- `wrappers.dfy`: `Option`.
- `text.dfy` (`Text`): the parts of Python's `str` the code relies on:
  - `isspace` and `strip`;
  - `startswith`;
  - the `in` test;
  - the last piece of `split`, with Python's left-to-right,
    non-overlapping splitting.
- `youtube.dfy` (`Youtube`): the two regular-expression shapes, `open(.*?)close`
  (with or without DOTALL) and `open([^<]+)close`. Each has a matcher that is
  proved against a declarative description of what the pattern accepts, and
  `re.search` is the leftmost start. It also holds the extraction of
  `get_latest_video` and a round-trip lemma for it.
- `channel_cache.dfy` (`ChannelCache`): `load_cache`, `save_cache`, and
  `resolve_channel_id` as a method on the cache-file object. The two API
  requests are oracles. The method is proved against `Resolves`, which states
  the whole decision chain.
- `db.dfy` (`Db`): the two tables as fields of a `Database` object:
  - `channels`, a sequence of rows kept UNIQUE in name and url;
  - `last_seen`, a map keyed by (platform, url).

  Every query and update is modelled, including the stepwise
  `update_channel` and the `setdefault` grouping loop of `get_last_seen`.
- `storage.dfy` (`Storage`): `load_json`, `get_last_seen` and the nested-map
  `update_last_seen`.
- `manage.dfy` (`Manage`): `readlines` and `writelines`, the `.env` rewriter
  as a loop over the lines read, and the `add` and `edit` commands over a `Database` and an
  `EnvFile`.
- `monitor.dfy` (`Monitor`): `check_youtube` as a loop over the channels that
  visits each one against a snapshot of the ledger taken once. It is proved
  equal to a log of `Notify`/`Record` events, and the ledger it leaves is the
  replay of that log.

Where the code's behaviour is easy to misread, the model follows the code:

- A channel with no last-seen entry is announced and then recorded. The code
  has no silent first observation (`src/monitor_youtube.py:60-71`). See
  `Monitor.FirstSightIsAnnounced`.
- The cache file, the JSON ledger and `.env` are rewritten in place. No lock
  guards the read-modify-write. No atomicity is claimed.
- `load_cache` catches only a JSON decoding error. Any other read error
  escapes `resolve_channel_id`, as `Raised`. The monitor's per-channel
  `except` catches it.
- `update_channel` with an unknown `name` and a `new_name` that another row
  already has edits that row. After `name = new_name`, the url and webhook
  statements select by the new name (`Db.UnknownNameEditsNewNameRow`).
- A `.env` line that sets the key is recognised only after `strip()`. The
  rewriter replaces it with `key=url\n`, dropping its indentation.

## Model

| member | source | states |
|---|---|---|
| Text.StripSpec | src/manage.py:35 | `strip()` removes whitespace at both ends and nothing else: the result is a piece of the input with no whitespace at either end, and an already trimmed string is returned as is |
| Text.Strip | src/manage.py:35 | `str.strip()`: `rstrip` of `lstrip`; what it returns is stated by `Text.StripSpec` |
| Text.StripStartSpec | src/manage.py:35 | `lstrip` drops exactly the leading whitespace: what remains is a suffix that starts with a non-space |
| Text.StripEndSpec | src/manage.py:35 | `rstrip` drops exactly the trailing whitespace: what remains is a prefix that ends with a non-space |
| Text.IndexFrom | src/channel_cache.py:57 | `find` from a position gives an occurrence, and no earlier occurrence exists; `None` means there is none from that position on |
| Text.Contains | src/channel_cache.py:57 | `w in s` holds exactly when `w` occurs somewhere in `s` |
| Text.SplitTail | src/channel_cache.py:58 | `split(sep)[-1]` is a suffix of the input; when the separator occurs, the suffix comes right after an occurrence, and otherwise it is the whole input; which occurrence, when the separator overlaps itself, is fixed by the left-to-right, non-overlapping scan of the body |
| Text.SplitTailIsFree | src/channel_cache.py:66 | the last piece of a split contains no occurrence of the separator |
| Text.StripKeepsPrefix | src/manage.py:35 | stripping a string that starts with a prefix without whitespace at its ends keeps that prefix at the front |
| Text.StripIgnoresTrailingSpace | src/manage.py:35 | one more whitespace character at the end of a string does not change what it strips to |
| Text.IsSpace | src/manage.py:35 | Python's `str.isspace` on one character: the ASCII controls `\t` to `\r` and `\x1c` to `\x1f`, space, and the Latin-1 and Unicode whitespace characters; exactly what `strip()` removes |
| Text.StartsWith | src/manage.py:35 | `startswith`: the prefix is no longer than the string and equals its first characters |
| Youtube.MatchesAt | src/youtube.py:28-36 | what each regular expression accepts at a start position: the opening tag, then a group that for `.*?` is the shortest one followed by the closing tag (without a newline unless DOTALL), and for `[^<]+` is the longest non-empty run without `<` followed by the closing tag |
| Youtube.IsLeftmostGroup | src/youtube.py:35-42 | `re.search(...).group(1)`: the group of a match that starts where no earlier start has a match |
| Youtube.ShortestUntil | src/youtube.py:35 | the lazy `.*?` stops at the first position where the closing text follows; without DOTALL it never crosses a newline; `None` means no closing text can be reached |
| Youtube.MatchAt | src/youtube.py:35-36 | the engine's answer at one start position is a match of the pattern there, and `None` means the pattern cannot match there |
| Youtube.SearchFrom | src/youtube.py:28 | `re.search` returns a match at the leftmost start that has one; `None` means no start matches |
| Youtube.Search | src/youtube.py:28 | `re.search`: a reported match is a match of the pattern, and no match starts before it; `None` means no start matches at all |
| Youtube.Group | src/youtube.py:32 | `.group(1)`: for a match, the matched text is the opening tag, the group, then the closing tag |
| Youtube.MatchesAtUnique | src/youtube.py:35-36 | at a given start each pattern has one match: the shortest group for `.*?`, the longest for `[^<]+` |
| Youtube.SearchFindsFirst | src/youtube.py:28 | a match whose start has no opening tag before it is the one `re.search` reports |
| Youtube.SearchFindsLazy | src/youtube.py:28 | in `pre + open + u + close + q`, with no opening tag in `pre` and no closing tag in `u`, the lazy search matches right after `pre` with group `u` |
| Youtube.SearchFindsRun | src/youtube.py:36 | the `[^<]+` search finds the first opening tag followed by a non-empty run without `<`, with that run as group |
| Youtube.LatestVideo | src/youtube.py:27-44 | no `<entry>...</entry>` match gives `(None, None)`; otherwise the result is the field extraction from the first entry's body alone (`Youtube.FirstEntryDecides`) |
| Youtube.EntryFields | src/youtube.py:35-44 | a video comes back exactly when both the video-id pattern and the title pattern match somewhere in the entry; otherwise `(None, None)`; the returned video id is group 1 of the leftmost video-id match and the returned title is group 1 of the leftmost title match (`Youtube.IsLeftmostGroup`), so a first `<yt:videoId>` that meets a newline before its closing tag is passed over; a returned video id has no newline; a returned title is non-empty and holds no `<` |
| Youtube.FirstEntryDecides | src/youtube.py:28-44 | for `pre + <entry> + body + </entry> + post`, with no `<entry>` in `pre` and no `</entry>` in `body`, the result is the extraction from `body`, whatever `post` holds |
| Youtube.MissingFieldGivesNone | src/youtube.py:35-39 | when the first entry's body has no `<yt:videoId>` or no `<title>` opening tag, the result is `(None, None)`, whatever later entries hold |
| Youtube.LatestVideoOfWrittenEntry | src/youtube.py:28-44 | round trip: a feed whose first entry carries `<yt:videoId>v</yt:videoId>` and `<title>t</title>` yields `(v, t)`, when `v` has no newline and no closing id tag and `t` is non-empty without `<` |
| Youtube.GetLatestVideo | src/youtube.py:20-30 | a failed request yields `(None, None)`; otherwise the result is the extraction from the response text |
| ChannelCache.LoadCache | src/channel_cache.py:23-33 | a missing or corrupt file reads as the empty cache; a stored map reads back as itself; only another read error raises |
| ChannelCache.DirectId | src/channel_cache.py:57-58 | the id is a suffix of the input containing no `/channel/`; it follows an occurrence of `/channel/` when there is one, and is the whole input otherwise |
| ChannelCache.HandleOf | src/channel_cache.py:65-66 | the handle is a suffix of the input without `@`; it follows an `@` when there is one, and is the whole input otherwise |
| ChannelCache.Resolves | src/channel_cache.py:43-122 | the decision chain of `resolve_channel_id` as a relation between the cache file before, the input, the key, the API replies, the result, the requests made and the file after; `ChannelCache.IdCache.Resolve` is proved to satisfy it |
| ChannelCache.LookupOutcome | src/channel_cache.py:83-115 | a non-empty id from the handle lookup is the result; when the lookup gives no id, a non-empty id from the search is the result; a resolved id is never empty; the result is `None` exactly when the lookup request fails, or when the search is consulted and fails, has no items or gives an empty id; a missing `id` or `snippet` field in the first item raises exactly when that reply is consulted |
| ChannelCache.ReplyId | src/channel_cache.py:89-92 | the channel id a reply yields: the first item's id, or `""` (the falsy `None` the code starts from) when the request failed, there were no items or the item was malformed; `src/channel_cache.py:110` reads the search reply the same way |
| ChannelCache.NeedsSearch | src/channel_cache.py:95 | `if not channel_id` after the handle lookup: the search runs exactly when the lookup's request succeeded, did not raise, and gave no id or an empty one |
| ChannelCache.LookupsMade | src/channel_cache.py:77-110 | the handle lookup always comes first; a second request is made exactly when the handle lookup gave no id, and it is the search for the same handle |
| ChannelCache.IdCache.SaveCache | src/channel_cache.py:36-40 | after saving, the file holds exactly the given cache and loads back as it |
| ChannelCache.IdCache.Resolve | src/channel_cache.py:43-122 | the full decision chain: cache hit, then the direct `/channel/` id, then the `@` handle, then the API key, then the lookup and search; the cache file is written only on success, with the loaded cache plus one entry |
| ChannelCache.SecondResolveHitsCache | src/channel_cache.py:49-119 | after a successful resolution, resolving the same input again returns the same id with no request and no write, whatever the key and the API answer |
| ChannelCache.FailureCachesNothing | src/channel_cache.py:71-115 | a resolution that returns `None` or raises leaves the cache file as it was |
| ChannelCache.SuccessAddsOneEntry | src/channel_cache.py:117-122 | a success leaves the loaded cache plus exactly the entry input → id; every other entry is kept |
| ChannelCache.DirectIdNeedsNoRequest | src/channel_cache.py:56-62 | an uncached `/channel/` input is answered with no request, with or without an API key; the answer is the last piece of Python's left-to-right split on `/channel/`, and contains no `/channel/` |
| ChannelCache.HandleLookupOrder | src/channel_cache.py:64-110 | requests are made only for an input with `@` and a non-empty key; the handle is the text after the last `@`; the lookup comes first, and the search follows exactly when the lookup gave no id |
| Db.Taken | src/db.py:156-162 | true exactly when some row carries the value in the given column; `Db.NameTaken` and `Db.UrlTaken` are its name and url cases, used for the UNIQUE constraints and the url query |
| Db.UniqueNames | src/db.py:26 | the UNIQUE constraint on `name`: no two rows share a name |
| Db.UniqueUrls | src/db.py:27 | the UNIQUE constraint on `url`: no two rows share a url |
| Db.Unique | src/db.py:26-27 | both constraints, which SQLite checks after each statement; `Db.Database.Valid` keeps it, and `Db.Database.UpdateChannel` raises exactly when the edit would break it |
| Db.WithoutName | src/db.py:77 | the DELETE keeps exactly the rows whose name differs, and never adds rows |
| Db.SetWhere | src/db.py:88-95 | one `UPDATE channels SET col=? WHERE name=?`: every row with the selected name gets the new value in that column, every other row is kept |
| Db.Edited | src/db.py:82-98 | the table after `update_channel` when it commits: each row named `name` or, given a new name, `new_name` has its non-empty new values; every other row is kept; the stepwise statements of `Db.Database.UpdateChannel` are proved to reach it |
| Db.PlatformSlice | src/db.py:119-120 | one platform's map holds exactly that platform's urls, each with its ledger value |
| Db.GroupOneMore | src/db.py:116-117 | one `setdefault` step groups one more row and keeps every row already grouped |
| Db.GroupsUnique | src/db.py:115-117 | the grouping is determined by the rows: every row appears once, under its platform |
| Db.Groups | src/db.py:115-117 | the nested map the loop builds: every `last_seen` row appears under its platform with its video id, every entry comes from a row, and no platform map is empty |
| Db.WithRow | src/db.py:117 | `data.setdefault(plat, {})[url] = vid`: the platform's map, created empty when missing, with the url set to the id; every other platform is kept |
| Db.GroupIsSlice | src/db.py:115-121 | in the grouping, each platform's map is that platform's slice, and a platform without rows is absent |
| Db.Database.constructor | src/db.py:15-43 | a fresh database has both tables empty |
| Db.Database.AddChannel | src/db.py:48-60 | the row is appended when neither its name nor its url is present; otherwise the table is unchanged and nothing raises |
| Db.Database.GetChannels | src/db.py:63-70 | returns every row exactly once (as a multiset, no order promised) |
| Db.Database.RemoveChannel | src/db.py:73-79 | exactly the rows with that name are deleted; the constraints still hold |
| Db.Database.UpdateChannel | src/db.py:82-98 | raises exactly when the edit would break a UNIQUE constraint, and then the table is unchanged; otherwise the table is the edit of the targeted rows |
| Db.Database.GetLastSeenForChannel | src/db.py:137-154 | returns the recorded id exactly when a row exists for (platform, url), and `None` otherwise |
| Db.Database.UpdateLastSeen | src/db.py:124-135 | afterwards the key reads back the new id; the key set gains at most that key; every other record and the channels are unchanged |
| Db.Database.ChannelExists | src/db.py:156-162 | true exactly when some row has that url |
| Db.Database.GetLastSeen | src/db.py:103-121 | with no platform, a nested map in which every row appears exactly once; with a platform, that platform's map, or `{}` when it has no rows |
| Db.RemoveKeepsUnique | src/db.py:73-79 | deleting rows keeps both UNIQUE constraints |
| Db.NameStepAgrees | src/db.py:87-89 | after the name UPDATE, names already match the final edit, and the constraint check agrees with name uniqueness of the edit |
| Db.UrlStepAgrees | src/db.py:91-92 | the url UPDATE, which selects by the reassigned name, touches exactly the targeted rows; after it names and urls match the final edit |
| Db.SameKeysSameUnique | src/db.py:26-27 | the UNIQUE check depends only on the name and url columns |
| Db.BlankFieldsKeepColumns | src/db.py:87-95 | an empty new value leaves its column unchanged in every row, and the row count is kept |
| Db.RenameCarriesUpdates | src/db.py:87-95 | when renamed, the url and webhook updates land on the row under its new name; rows named neither `name` nor `new_name` are untouched |
| Db.UnknownNameChangesNothing | src/db.py:87-95 | an unknown name, with no new name or an unused one, changes nothing |
| Db.UnknownNameEditsNewNameRow | src/db.py:87-95 | an unknown name with a new name that another row has edits that row's url and webhook |
| Db.RenameOntoTakenNameRaises | src/db.py:88 | renaming a channel onto another channel's name breaks UNIQUE, so the update raises |
| Db.EditIsIdempotent | src/db.py:82-98 | running the same edit twice gives the same table as running it once |
| Db.RemovedNameIsGone | src/db.py:77 | after removal no row has the name, and every other row is still present |
| Storage.LoadJson | src/storage.py:17-30 | a decoded file is returned as is; a missing file, corrupt JSON or any other read error gives the default; nothing raises |
| Storage.GetLastSeen | src/storage.py:48-53 | an unusable file reads as exactly the three empty platforms `youtube`, `reddit` and `web` |
| Storage.Upserted | src/storage.py:61-67 | the platform exists afterwards (created empty if missing) and maps the url to the new id; all other platforms and all other urls of the platform are unchanged |
| Storage.GroupOf | src/storage.py:64-67 | a platform's map, `{}` when the platform is absent, which the upsert creates |
| Storage.LastSeenStore.UpdateLastSeen | src/storage.py:56-68 | the file afterwards holds the loaded ledger with the one entry upserted; the platform defaults to `youtube` |
| Storage.UpsertIsIdempotent | src/storage.py:67 | recording the same id again changes nothing |
| Storage.UpsertsCommute | src/storage.py:61-68 | records for different (platform, url) keys commute |
| Storage.UpsertTwice | src/storage.py:64-67 | two records under one platform set both entries of its map |
| Storage.FirstRecordKeepsDefaults | src/storage.py:52-67 | the first record on an unusable file keeps the three default platforms and puts the one entry under `youtube` |
| Manage.HasKeyLine | src/manage.py:34-37 | true exactly when some line, once stripped, starts with `key=` |
| Manage.KeyLine | src/manage.py:36 | the line a save writes for a key: `key=url` and a newline; the appended form at `src/manage.py:42` is a newline followed by it |
| Manage.RewriteLine | src/manage.py:35-39 | one pass of the loop body: a line that sets the key becomes `key=url\n`, any other line is kept verbatim |
| Manage.IsKeyLine | src/manage.py:35 | a line sets the key when, stripped, it starts with `key=` |
| Manage.ReadLines | src/manage.py:29-31 | `readlines`: the text cut after each newline |
| Manage.Join | src/manage.py:44-45 | `writelines`: the lines one after another |
| Manage.ReadLinesSpec | src/manage.py:29-31 | every piece `readlines` returns is a non-empty line with a newline only at its end, every piece but the last ends with one, and the pieces joined give the text back |
| Manage.ReadBack | src/manage.py:29-45 | lines written by `writelines` are read back by `readlines` as the same lines, when they are such lines |
| Manage.SavedEnv | src/manage.py:22-45 | the `.env` text after a save: the text read into lines, rewritten and written back; an absent file is the empty text |
| Manage.Replaced | src/manage.py:33-39 | the loop keeps the line count, and each line becomes `key=url\n` if it sets the key and stays verbatim otherwise |
| Manage.RewrittenEnv | src/manage.py:33-42 | the rewritten lines come first; exactly one `\nkey=url\n` is appended, and only when no line set the key |
| Manage.EnvFile.SaveWebhookToEnv | src/manage.py:22-47 | the file's text afterwards is the old text read into lines, rewritten and written back |
| Manage.WrittenLinesSetKey | src/manage.py:36-42 | both forms the rewriter writes set the key, so a later save recognises them |
| Manage.OthersKeptInOrder | src/manage.py:34-42 | the lines that do not set the key survive verbatim and in their order |
| Manage.Others | src/manage.py:34-39 | the lines the loop copies verbatim, in their order: those that do not set the key; never longer than the file |
| Manage.OthersContents | src/manage.py:34-39 | a line is among those kept verbatim exactly when it is a line of the file and does not set the key |
| Manage.UnchangedWhenCurrent | src/manage.py:34-39 | a file whose key lines already read `key=url\n` is written back unchanged |
| Manage.SaveIsIdempotent | src/manage.py:22-45 | after a save the file, read back, sets the key; a second save of the same key and url, which re-reads the file, writes exactly the same text, both when the key was present and when it was appended |
| Manage.SaveAgainWhenPresent | src/manage.py:33-39 | when a line set the key, the rewritten lines still set it, and rewriting them again changes nothing |
| Manage.SaveAfterReplace | src/manage.py:29-45 | when a line set the key, the written file reads back as the rewritten lines and a second save leaves it as it is |
| Manage.ReadAfterAppend | src/manage.py:29-45 | the appended `\nkey=url\n` reads back as a blank line (or the newline ending an unterminated last line) followed by `key=url\n` |
| Manage.AfterAppendKeyLines | src/manage.py:35-42 | when no line set the key, after the append and re-read the only line setting it is the last one, `key=url\n` |
| Manage.SaveAfterAppend | src/manage.py:29-45 | when no line set the key, the written file reads back with one key line and a second save leaves it as it is |
| Manage.BlankLineSetsNoKey | src/manage.py:35 | a blank line never sets a key |
| Manage.NewlineSetsNoKey | src/manage.py:35 | a line that sets no key still sets none once a newline ends it |
| Manage.KeyLineIsLine | src/manage.py:36 | `key=url\n` is one line ending with a newline when key and url hold none |
| Manage.NothingToReplace | src/manage.py:34-39 | with no key line the loop changes no line |
| Manage.KeyOf | src/manage.py:121-125 | the scan finds a key exactly when some row has the name, and the key belongs to such a row |
| Manage.KeyOfUnique | src/manage.py:121-125 | under the UNIQUE name constraint, the key found is the one row's key |
| Manage.AllGiven | src/manage.py:62-64 | the guard of `add`: all four stripped answers are non-empty |
| Manage.Add | src/manage.py:52-72 | with any stripped field empty nothing is written; otherwise the row is inserted unless its name or url exists, and the webhook is saved under its key in either case |
| Manage.Edit | src/manage.py:97-127 | a blank name does nothing; an update that raises aborts before `.env`; a new key and a new url save under the new key; a new url alone saves under the key of the channel found by its new or old name; otherwise `.env` is untouched |
| Manage.FoundKeyIsTableKey | src/manage.py:121-124 | the row the scan over the returned rows finds carries the table's key for that name |
| Manage.NoRowNoKey | src/manage.py:121-125 | a name on no returned row is on no row of the table, so nothing is saved |
| Monitor.LatestFor | src/monitor_youtube.py:48-57 | an exception from resolving or fetching is reported as raised; an unresolved or empty id skips the channel; a missing or empty video id skips it; otherwise the fetched video is the result |
| Monitor.Webhook | src/monitor_youtube.py:41-42 | `os.getenv(webhook_env)`, with an unset variable read as the empty string that the falsy test skips |
| Monitor.VisitChannel | src/monitor_youtube.py:34-74 | one iteration as a value: its status and its events; `Monitor.VisitShape` and `Monitor.AnnouncedExactlyWhenNew` state what it yields |
| Monitor.CycleLog | src/monitor_youtube.py:33-74 | the events of the loop: each channel's events in channel order; `Monitor.CycleLogAppend` and `Monitor.CycleAround` state its structure |
| Monitor.Replay | src/monitor_youtube.py:71 | the ledger after the cycle's `update_last_seen` calls, applied in order; `Monitor.ReplayAppend` and `Monitor.ReplayUntouched` state its properties |
| Monitor.CheckYoutube | src/monitor_youtube.py:15-76 | with no channels nothing is read or written; otherwise every returned channel is visited once, in order, against the snapshot of the `youtube` ledger taken before the loop; the log is the channels' events in order, and the ledger is that log replayed |
| Monitor.VisitAll | src/monitor_youtube.py:33-74 | the loop's statuses are each channel's status, its log is the channels' events in order, and the ledger is the replay of that log |
| Monitor.VisitOne | src/monitor_youtube.py:34-74 | one iteration: each skip or caught exception ends the visit with no effect, and a new video is announced and then recorded |
| Monitor.NotifyRecordReplay | src/monitor_youtube.py:69-71 | a notification followed by its record writes exactly the recorded key |
| Monitor.CycleLogAppend | src/monitor_youtube.py:33 | a cycle over two runs of channels logs the first run's events, then the second's |
| Monitor.ReplayAppend | src/monitor_youtube.py:71 | replaying two logs in turn is replaying their concatenation |
| Monitor.StatusLogPointwise | src/monitor_youtube.py:33 | the status at each position is that channel's own status |
| Monitor.AnnouncedExactlyWhenNew | src/monitor_youtube.py:40-71 | a channel is announced exactly when its webhook is set, its id resolves, it has a video, and the snapshot does not already hold that video; the record follows unless the ledger write fails |
| Monitor.FirstSightIsAnnounced | src/monitor_youtube.py:60-71 | a channel with no snapshot entry is announced as soon as it has a webhook and a video |
| Monitor.VisitShape | src/monitor_youtube.py:40-74 | a visit has no events, a notification, or a notification then the record of the same video for the channel's url |
| Monitor.NotifyBeforeRecord | src/monitor_youtube.py:66-71 | every ledger write of a cycle comes right after the notification of the same video |
| Monitor.NoRecordFor | src/monitor_youtube.py:33-71 | a cycle writes no record for a url that none of its channels has |
| Monitor.AtMostOneRecordPerUrl | src/monitor_youtube.py:33-71 | with UNIQUE urls, a cycle writes at most one record per url |
| Monitor.ReplayUntouched | src/monitor_youtube.py:71 | records for other urls leave a url's ledger entry as it was |
| Monitor.CycleAround | src/monitor_youtube.py:33 | a cycle's log splits into the events before a channel, the channel's own, and those after |
| Monitor.NoRepeatAnnouncement | src/monitor_youtube.py:29-71 | a channel announced and recorded in one cycle is not announced again in the next while its feed gives the same video, whatever the webhooks and failures then |

## Left out

- HTTP and the `requests` library: the two YouTube API requests, the feed request and the Discord post. The API replies are oracles (`ChannelCache.Reply`). The feed request is `Option<string>` in `Youtube.GetLatestVideo`.
- `src/discord.py` is not part of this model beyond its contract: the notifier returns nothing and never raises, so a notification is a `Monitor.Notify` event.
- In the monitor cycle, `resolve_channel_id` and `get_latest_video` are oracles (`resolve`, `feed`). Their own logic is modelled in `ChannelCache.IdCache.Resolve` and `Youtube.GetLatestVideo`. The cycle does not thread the cache file through its visits.
- A failing `update_last_seen` is an oracle (`recordFails`). The model does not say why SQLite would fail.
- JSON encoding and decoding, `indent` and `sort_keys`. A file is absent, a decoded value, corrupt, or unreadable. A decoded value that is not an object is not modelled.
- Failures while saving: `save_cache`, `save_json` (whose errors are printed and swallowed) and the `.env` write always succeed here.
- The SQLite engine and SQL text. The autoincrement `id` column is not modelled. `get_channels` promises no order. The rows it returns are any permutation of the table.
- Db.Database.UpdateChannel: a statement that breaks UNIQUE leaves the whole table unchanged. The partial effect of the statements before it is never committed. Rollback details are not modelled.
- `load_dotenv`, `os.getenv` and the module-level `YOUTUBE_API_KEY`: the environment is a map and the key a parameter. An unset variable and an empty one are both `""`, which the code treats alike.
- Text-mode newline translation when `.env` is opened: the file's text is taken after translation, so `\r\n` is already `\n`. `os.makedirs` for the directory is not modelled.
- `print`, `input()`, `list_channels`, `main` and `ensure_db` in `src/manage.py`: console I/O. The typed answers are parameters of `Manage.Add` and `Manage.Edit`.
- `remove` in `src/manage.py:88-93`: only its prompt is left out. Its effect is `Db.Database.RemoveChannel` on the stripped name.
- Atomic writes, crash safety and locking: the code writes its files in place and has no mutex, so none is claimed.
- `src/main.py` (the timer loop) and `src/logging_config.py` are not part of this model.
- `get_youtube_channels` in `src/storage.py` reads a file the live code no longer uses. It is not part of this model.
- `str.strip()` follows Python's `isspace` for the Latin-1 and Unicode whitespace characters listed in `Text.IsSpace`. Other Unicode details and text encodings are not modelled.
