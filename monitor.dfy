/**
 * The YouTube check cycle of src/monitor_youtube.py. For every configured
 * channel, in the order the table returns them, `check_youtube` skips the
 * channel when its webhook variable is unset, resolves its channel id,
 * reads the newest video of its feed, and compares it with the last-seen
 * snapshot taken once before the loop. A video that differs from the
 * snapshot, including when the channel has no entry yet, is announced
 * and then recorded. An exception in one channel is caught and the loop
 * goes on.
 *
 * The environment is a map, and the resolver, the feed request and the
 * ledger write's failure are oracles. The Discord notifier returns nothing
 * and never raises, so a notification is an event in the log.
 */
module Monitor {
  import opened Wrappers
  import opened Youtube
  import opened ChannelCache
  import opened Db

  /** The platform under which the cycle reads and records. */
  const Platform := "youtube"

  /** What became of one channel in a cycle. */
  datatype Status =
    | NoWebhook    // the webhook variable is unset or empty
    | Unresolved   // no channel id
    | NoVideo      // no feed, no entry, or an empty video id
    | Unchanged    // the snapshot already holds this video id
    | Notified     // announced and recorded
    | Failed       // an exception, caught by the loop

  /** The effects of a cycle, in order. */
  datatype Event =
    | Notify(title: string, name: string, videoId: string, webhookUrl: string)  // send_discord_notification
    | Record(url: string, videoId: string)                                     // update_last_seen(url, id, "youtube")

  /**
   * What `get_latest_video(channel_id)` did: it returned a video or
   * `(None, None)` (what `Youtube.GetLatestVideo` computes from the feed),
   * or an exception escaped it.
   */
  datatype FeedReply =
    | Returned(latest: Option<Video>)
    | FeedRaised

  /** Resolution and fetch for one channel url. */
  datatype Fetch = FetchRaised | IdMissing | VideoMissing | Latest(video: Video)

  /** The outcome of one iteration of the loop. */
  datatype Visit = Visit(status: Status, events: seq<Event>)

  /** `os.getenv(key)`, with "" for an unset variable. */
  function Webhook(env: map<string, string>, key: string): string {
    if key in env then env[key] else ""
  }

  /** `resolve_channel_id(url)` then `get_latest_video(channel_id)`, with Python's falsy tests. */
  function LatestFor(url: string, resolve: string -> Resolution, feed: string -> FeedReply): (f: Fetch)
    ensures f.Latest? ==> f.video.videoId != "" && resolve(url).Resolved? && resolve(url).id != ""
    ensures resolve(url).Raised? ==> f == FetchRaised
    ensures resolve(url).NotResolved? || resolve(url) == Resolved("") ==> f == IdMissing
    ensures resolve(url).Resolved? && resolve(url).id != "" ==>
              (f == FetchRaised <==> feed(resolve(url).id).FeedRaised?)
              && (f == VideoMissing <==> feed(resolve(url).id) == Returned(None)
                                         || (feed(resolve(url).id).Returned? && feed(resolve(url).id).latest.Some?
                                             && feed(resolve(url).id).latest.value.videoId == ""))
    ensures resolve(url).Resolved? && resolve(url).id != "" && feed(resolve(url).id).Returned?
            && feed(resolve(url).id).latest.Some? && feed(resolve(url).id).latest.value.videoId != "" ==>
              f == Latest(feed(resolve(url).id).latest.value)
  {
    match resolve(url)
    case Raised => FetchRaised
    case NotResolved => IdMissing
    case Resolved(id) =>
      if id == "" then IdMissing
      else match feed(id)
        case FeedRaised => FetchRaised
        case Returned(None) => VideoMissing
        case Returned(Some(video)) => if video.videoId == "" then VideoMissing else Latest(video)
  }

  /** One iteration of the loop for `row`, compared against `snapshot`. */
  function VisitChannel(row: ChannelRow, env: map<string, string>, snapshot: map<string, string>,
                        resolve: string -> Resolution, feed: string -> FeedReply, recordFails: string -> bool)
    : Visit
  {
    var hook := Webhook(env, row.webhookEnv);
    if hook == "" then Visit(NoWebhook, [])
    else match LatestFor(row.url, resolve, feed)
      case FetchRaised => Visit(Failed, [])
      case IdMissing => Visit(Unresolved, [])
      case VideoMissing => Visit(NoVideo, [])
      case Latest(video) =>
        if row.url in snapshot && snapshot[row.url] == video.videoId then Visit(Unchanged, [])
        else
          var notify := Notify(video.title, row.name, video.videoId, hook);
          if recordFails(row.url) then Visit(Failed, [notify])
          else Visit(Notified, [notify, Record(row.url, video.videoId)])
  }

  /** The events of a whole cycle over `rows`: each channel's events, in order. */
  function CycleLog(rows: seq<ChannelRow>, env: map<string, string>, snapshot: map<string, string>,
                    resolve: string -> Resolution, feed: string -> FeedReply, recordFails: string -> bool)
    : seq<Event>
  {
    if rows == [] then []
    else VisitChannel(rows[0], env, snapshot, resolve, feed, recordFails).events
         + CycleLog(rows[1..], env, snapshot, resolve, feed, recordFails)
  }

  /** What became of each channel of `rows`, in order. */
  function StatusLog(rows: seq<ChannelRow>, env: map<string, string>, snapshot: map<string, string>,
                     resolve: string -> Resolution, feed: string -> FeedReply, recordFails: string -> bool)
    : seq<Status>
  {
    if rows == [] then []
    else [VisitChannel(rows[0], env, snapshot, resolve, feed, recordFails).status]
         + StatusLog(rows[1..], env, snapshot, resolve, feed, recordFails)
  }

  /** The ledger after the `Record` events of `log`. */
  function Replay(ledger: map<LedgerKey, string>, log: seq<Event>): map<LedgerKey, string>
    decreases |log|
  {
    if log == [] then ledger
    else
      var next := if log[0].Record? then ledger[LedgerKey(Platform, log[0].url) := log[0].videoId] else ledger;
      Replay(next, log[1..])
  }

  /**
   * `check_youtube()` on the database `db`. `order` is the sequence
   * `get_channels` returned, `statuses[i]` what became of `order[i]`, and
   * `log` the notifications and ledger writes, in order.
   */
  method CheckYoutube(db: Database, env: map<string, string>, resolve: string -> Resolution,
                      feed: string -> FeedReply, recordFails: string -> bool)
    returns (order: seq<ChannelRow>, statuses: seq<Status>, log: seq<Event>)
    requires db.Valid()
    modifies db
    ensures db.Valid() && db.channels == old(db.channels)
    ensures multiset(order) == multiset(old(db.channels))
    ensures order == [] ==> statuses == [] && log == [] && db.lastSeen == old(db.lastSeen)
    ensures |statuses| == |order|
    ensures forall i :: 0 <= i < |order| ==>
              statuses[i] == VisitChannel(order[i], env, PlatformSlice(old(db.lastSeen), Platform),
                                          resolve, feed, recordFails).status
    ensures log == CycleLog(order, env, PlatformSlice(old(db.lastSeen), Platform), resolve, feed, recordFails)
    ensures db.lastSeen == Replay(old(db.lastSeen), log)
  {
    order := db.GetChannels();
    statuses := [];
    log := [];
    if |order| == 0 {
      return;
    }
    var data := db.GetLastSeen();
    GroupIsSlice(data.byPlatform, db.lastSeen, Platform);
    var snapshot := if Platform in data.byPlatform then data.byPlatform[Platform] else map[];
    assert snapshot == PlatformSlice(old(db.lastSeen), Platform);
    statuses, log := VisitAll(db, order, env, snapshot, resolve, feed, recordFails);
  }

  /** The `for channel in channels` loop, every iteration against the same `snapshot`. */
  method VisitAll(db: Database, order: seq<ChannelRow>, env: map<string, string>, snapshot: map<string, string>,
                  resolve: string -> Resolution, feed: string -> FeedReply, recordFails: string -> bool)
    returns (statuses: seq<Status>, log: seq<Event>)
    requires db.Valid()
    modifies db
    ensures db.Valid() && db.channels == old(db.channels)
    ensures |statuses| == |order|
    ensures forall i :: 0 <= i < |order| ==>
              statuses[i] == VisitChannel(order[i], env, snapshot, resolve, feed, recordFails).status
    ensures log == CycleLog(order, env, snapshot, resolve, feed, recordFails)
    ensures db.lastSeen == Replay(old(db.lastSeen), log)
  {
    statuses := [];
    log := [];
    var i := 0;
    while i < |order|
      invariant 0 <= i <= |order|
      invariant db.channels == old(db.channels)
      invariant |statuses| == i
      invariant statuses == StatusLog(order[..i], env, snapshot, resolve, feed, recordFails)
      invariant log == CycleLog(order[..i], env, snapshot, resolve, feed, recordFails)
      invariant db.lastSeen == Replay(old(db.lastSeen), log)
    {
      var status, events := VisitOne(db, order[i], env, snapshot, resolve, feed, recordFails);
      CycleStep(order, i, env, snapshot, resolve, feed, recordFails);
      StatusStep(order, i, env, snapshot, resolve, feed, recordFails);
      ReplayAppend(old(db.lastSeen), log, events);
      statuses := statuses + [status];
      log := log + events;
      i := i + 1;
    }
    assert order[..i] == order;
    StatusLogPointwise(order, env, snapshot, resolve, feed, recordFails);
  }

  /** One iteration of the loop: each `continue` of the source is an early return. */
  method VisitOne(db: Database, row: ChannelRow, env: map<string, string>, snapshot: map<string, string>,
                  resolve: string -> Resolution, feed: string -> FeedReply, recordFails: string -> bool)
    returns (status: Status, events: seq<Event>)
    modifies db
    ensures Visit(status, events) == VisitChannel(row, env, snapshot, resolve, feed, recordFails)
    ensures db.lastSeen == Replay(old(db.lastSeen), events)
    ensures db.channels == old(db.channels)
  {
    events := [];
    var webhookUrl := Webhook(env, row.webhookEnv);
    if webhookUrl == "" {
      return NoWebhook, events;
    }
    var resolved := resolve(row.url);
    if resolved.Raised? {
      return Failed, events;
    }
    if resolved.NotResolved? || resolved.id == "" {
      return Unresolved, events;
    }
    var reply := feed(resolved.id);
    if reply.FeedRaised? {
      return Failed, events;
    }
    var latest := reply.latest;
    if latest.None? || latest.value.videoId == "" {
      return NoVideo, events;
    }
    var video := latest.value;
    var previous := if row.url in snapshot then Some(snapshot[row.url]) else None;
    if previous == Some(video.videoId) {
      return Unchanged, events;
    }
    events := [Notify(video.title, row.name, video.videoId, webhookUrl)];
    if recordFails(row.url) {
      return Failed, events;
    }
    db.UpdateLastSeen(row.url, video.videoId, Platform);
    events := events + [Record(row.url, video.videoId)];
    NotifyRecordReplay(old(db.lastSeen), events);
    status := Notified;
  }

  /** A notification followed by its record writes exactly the recorded key. */
  lemma NotifyRecordReplay(ledger: map<LedgerKey, string>, events: seq<Event>)
    requires |events| == 2 && events[0].Notify? && events[1].Record?
    ensures Replay(ledger, events) == ledger[LedgerKey(Platform, events[1].url) := events[1].videoId]
  {
    var written := ledger[LedgerKey(Platform, events[1].url) := events[1].videoId];
    assert events[1..][1..] == [];
    assert Replay(ledger, events[1..]) == Replay(written, []);
  }

  /** A cycle over two runs of channels logs the first run's events, then the second's. */
  lemma {:induction false} CycleLogAppend(a: seq<ChannelRow>, b: seq<ChannelRow>, env: map<string, string>,
                                          snapshot: map<string, string>, resolve: string -> Resolution,
                                          feed: string -> FeedReply, recordFails: string -> bool)
    ensures CycleLog(a + b, env, snapshot, resolve, feed, recordFails)
         == CycleLog(a, env, snapshot, resolve, feed, recordFails) + CycleLog(b, env, snapshot, resolve, feed, recordFails)
  {
    if a == [] {
      assert a + b == b;
    } else {
      assert (a + b)[1..] == a[1..] + b;
      CycleLogAppend(a[1..], b, env, snapshot, resolve, feed, recordFails);
    }
  }

  /** The log of the first `i + 1` channels extends the log of the first `i` by channel `i`'s events. */
  lemma CycleStep(rows: seq<ChannelRow>, i: nat, env: map<string, string>, snapshot: map<string, string>,
                  resolve: string -> Resolution, feed: string -> FeedReply, recordFails: string -> bool)
    requires i < |rows|
    ensures CycleLog(rows[..i + 1], env, snapshot, resolve, feed, recordFails)
         == CycleLog(rows[..i], env, snapshot, resolve, feed, recordFails)
            + VisitChannel(rows[i], env, snapshot, resolve, feed, recordFails).events
  {
    assert rows[..i + 1] == rows[..i] + [rows[i]];
    CycleLogAppend(rows[..i], [rows[i]], env, snapshot, resolve, feed, recordFails);
    assert [rows[i]][1..] == [];
  }

  /** The statuses of the first `i + 1` channels extend those of the first `i` by channel `i`'s status. */
  lemma StatusStep(rows: seq<ChannelRow>, i: nat, env: map<string, string>, snapshot: map<string, string>,
                   resolve: string -> Resolution, feed: string -> FeedReply, recordFails: string -> bool)
    requires i < |rows|
    ensures StatusLog(rows[..i + 1], env, snapshot, resolve, feed, recordFails)
         == StatusLog(rows[..i], env, snapshot, resolve, feed, recordFails)
            + [VisitChannel(rows[i], env, snapshot, resolve, feed, recordFails).status]
  {
    assert rows[..i + 1] == rows[..i] + [rows[i]];
    StatusLogAppend(rows[..i], [rows[i]], env, snapshot, resolve, feed, recordFails);
    assert [rows[i]][1..] == [];
  }

  /** The statuses over two runs of channels are the first run's statuses, then the second's. */
  lemma {:induction false} StatusLogAppend(a: seq<ChannelRow>, b: seq<ChannelRow>, env: map<string, string>,
                                           snapshot: map<string, string>, resolve: string -> Resolution,
                                           feed: string -> FeedReply, recordFails: string -> bool)
    ensures StatusLog(a + b, env, snapshot, resolve, feed, recordFails)
         == StatusLog(a, env, snapshot, resolve, feed, recordFails) + StatusLog(b, env, snapshot, resolve, feed, recordFails)
  {
    if a == [] {
      assert a + b == b;
    } else {
      assert (a + b)[1..] == a[1..] + b;
      StatusLogAppend(a[1..], b, env, snapshot, resolve, feed, recordFails);
    }
  }

  /** The status log holds, at each position, the status of that channel's visit. */
  lemma {:induction false} StatusLogPointwise(rows: seq<ChannelRow>, env: map<string, string>,
                                              snapshot: map<string, string>, resolve: string -> Resolution,
                                              feed: string -> FeedReply, recordFails: string -> bool)
    ensures |StatusLog(rows, env, snapshot, resolve, feed, recordFails)| == |rows|
    ensures forall i :: 0 <= i < |rows| ==>
              StatusLog(rows, env, snapshot, resolve, feed, recordFails)[i]
              == VisitChannel(rows[i], env, snapshot, resolve, feed, recordFails).status
  {
    if rows != [] {
      StatusLogPointwise(rows[1..], env, snapshot, resolve, feed, recordFails);
    }
  }

  lemma {:induction false} ReplayAppend(ledger: map<LedgerKey, string>, a: seq<Event>, b: seq<Event>)
    ensures Replay(ledger, a + b) == Replay(Replay(ledger, a), b)
    decreases |a|
  {
    if a == [] {
      assert a + b == b;
    } else {
      assert (a + b)[1..] == a[1..] + b;
      var next := if a[0].Record? then ledger[LedgerKey(Platform, a[0].url) := a[0].videoId] else ledger;
      ReplayAppend(next, a[1..], b);
    }
  }

  /**
   * A channel is announced exactly when its webhook is set, its id
   * resolves, its feed gives a non-empty video id, and the snapshot does
   * not already hold that id. The announcement names the video and the
   * channel, and it is recorded unless the ledger write fails.
   */
  lemma AnnouncedExactlyWhenNew(row: ChannelRow, env: map<string, string>, snapshot: map<string, string>,
                                resolve: string -> Resolution, feed: string -> FeedReply, recordFails: string -> bool)
    ensures var v := VisitChannel(row, env, snapshot, resolve, feed, recordFails);
      var f := LatestFor(row.url, resolve, feed);
      && (v.events != [] <==>
            Webhook(env, row.webhookEnv) != "" && f.Latest?
            && !(row.url in snapshot && snapshot[row.url] == f.video.videoId))
      && (v.events != [] ==>
            v.events[0] == Notify(f.video.title, row.name, f.video.videoId, Webhook(env, row.webhookEnv))
            && (v.status == Notified <==> !recordFails(row.url))
            && v.events == if recordFails(row.url) then [v.events[0]] else [v.events[0], Record(row.url, f.video.videoId)])
  {
  }

  /**
   * A channel with no entry in the snapshot is announced as soon as it has
   * a webhook and a video: the first sighting is not silent.
   */
  lemma FirstSightIsAnnounced(row: ChannelRow, env: map<string, string>, snapshot: map<string, string>,
                              resolve: string -> Resolution, feed: string -> FeedReply, recordFails: string -> bool)
    requires row.url !in snapshot
    requires Webhook(env, row.webhookEnv) != "" && LatestFor(row.url, resolve, feed).Latest?
    ensures VisitChannel(row, env, snapshot, resolve, feed, recordFails).events != []
    ensures VisitChannel(row, env, snapshot, resolve, feed, recordFails).events[0].Notify?
  {
  }

  /** Each record in `log` comes right after the notification of the same video. */
  predicate RecordsFollowNotify(log: seq<Event>) {
    forall i :: 0 <= i < |log| && log[i].Record? ==>
      0 < i && log[i - 1].Notify? && log[i - 1].videoId == log[i].videoId
  }

  /** `log` writes nothing for `url`. */
  predicate NoRecordOf(log: seq<Event>, url: string) {
    forall i :: 0 <= i < |log| && log[i].Record? ==> log[i].url != url
  }

  /** `log` writes each url at most once. */
  predicate OneRecordPerUrl(log: seq<Event>) {
    forall i, j :: 0 <= i < j < |log| && log[i].Record? && log[j].Record? ==> log[i].url != log[j].url
  }

  /** The events of one visit: none, a notification, or a notification and its record. */
  lemma VisitShape(row: ChannelRow, env: map<string, string>, snapshot: map<string, string>,
                   resolve: string -> Resolution, feed: string -> FeedReply, recordFails: string -> bool)
    ensures var v := VisitChannel(row, env, snapshot, resolve, feed, recordFails);
      && |v.events| <= 2
      && (v.events != [] ==> v.events[0].Notify?)
      && (|v.events| == 2 ==> v.events[1] == Record(row.url, v.events[0].videoId))
      && (v.status == Notified <==> |v.events| == 2)
  {
  }

  /** Every ledger write of a cycle comes right after the notification of the same video. */
  lemma {:induction false} NotifyBeforeRecord(rows: seq<ChannelRow>, env: map<string, string>,
                                              snapshot: map<string, string>, resolve: string -> Resolution,
                                              feed: string -> FeedReply, recordFails: string -> bool)
    ensures RecordsFollowNotify(CycleLog(rows, env, snapshot, resolve, feed, recordFails))
  {
    if rows != [] {
      var e := VisitChannel(rows[0], env, snapshot, resolve, feed, recordFails).events;
      var rest := CycleLog(rows[1..], env, snapshot, resolve, feed, recordFails);
      var log := e + rest;
      VisitShape(rows[0], env, snapshot, resolve, feed, recordFails);
      NotifyBeforeRecord(rows[1..], env, snapshot, resolve, feed, recordFails);
      forall i | 0 <= i < |log| && log[i].Record?
        ensures 0 < i && log[i - 1].Notify? && log[i - 1].videoId == log[i].videoId
      {
        if i >= |e| {
          assert log[i] == rest[i - |e|];
          if i - |e| > 0 {
            assert log[i - 1] == rest[i - |e| - 1];
          }
        } else {
          assert log[i] == e[i];
          assert i == 1 && log[0] == e[0];
        }
      }
    }
  }

  /** A cycle writes no record for a url that none of its channels has. */
  lemma {:induction false} NoRecordFor(rows: seq<ChannelRow>, url: string, env: map<string, string>,
                                       snapshot: map<string, string>, resolve: string -> Resolution,
                                       feed: string -> FeedReply, recordFails: string -> bool)
    requires forall k :: 0 <= k < |rows| ==> rows[k].url != url
    ensures NoRecordOf(CycleLog(rows, env, snapshot, resolve, feed, recordFails), url)
  {
    if rows != [] {
      var e := VisitChannel(rows[0], env, snapshot, resolve, feed, recordFails).events;
      var rest := CycleLog(rows[1..], env, snapshot, resolve, feed, recordFails);
      VisitShape(rows[0], env, snapshot, resolve, feed, recordFails);
      NoRecordFor(rows[1..], url, env, snapshot, resolve, feed, recordFails);
      var log: seq<Event> := e + rest;
      assert rows[0].url != url;
      forall i | 0 <= i < |log| && log[i].Record? ensures log[i].url != url {
        if i >= |e| {
          assert log[i] == rest[i - |e|];
        } else {
          assert log[i] == e[i];
          assert i == 1 && e[1].url == rows[0].url;
        }
      }
    }
  }

  /** With the UNIQUE url constraint, a cycle writes at most one record per channel url. */
  lemma {:induction false} AtMostOneRecordPerUrl(rows: seq<ChannelRow>, env: map<string, string>,
                                                 snapshot: map<string, string>, resolve: string -> Resolution,
                                                 feed: string -> FeedReply, recordFails: string -> bool)
    requires UniqueUrls(rows)
    ensures OneRecordPerUrl(CycleLog(rows, env, snapshot, resolve, feed, recordFails))
  {
    if rows != [] {
      var e := VisitChannel(rows[0], env, snapshot, resolve, feed, recordFails).events;
      var rest := CycleLog(rows[1..], env, snapshot, resolve, feed, recordFails);
      var log := e + rest;
      VisitShape(rows[0], env, snapshot, resolve, feed, recordFails);
      assert UniqueUrls(rows[1..]) by {
        forall a, b | 0 <= a < b < |rows[1..]| ensures rows[1..][a].url != rows[1..][b].url {
          assert rows[1..][a] == rows[a + 1] && rows[1..][b] == rows[b + 1];
        }
      }
      forall k | 0 <= k < |rows[1..]| ensures rows[1..][k].url != rows[0].url {
        assert rows[1..][k] == rows[k + 1];
      }
      AtMostOneRecordPerUrl(rows[1..], env, snapshot, resolve, feed, recordFails);
      NoRecordFor(rows[1..], rows[0].url, env, snapshot, resolve, feed, recordFails);
      forall i, j | 0 <= i < j < |log| && log[i].Record? && log[j].Record? ensures log[i].url != log[j].url {
        if i < |e| {
          assert log[i] == e[i];
          assert i == 1 && e[1].url == rows[0].url;
          assert log[j] == rest[j - |e|];
        } else {
          assert log[i] == rest[i - |e|] && log[j] == rest[j - |e|];
        }
      }
    }
  }

  /** Records for other urls leave a url's ledger entry as it was. */
  lemma {:induction false} ReplayUntouched(ledger: map<LedgerKey, string>, log: seq<Event>, url: string)
    requires NoRecordOf(log, url)
    ensures var key := LedgerKey(Platform, url);
      (key in Replay(ledger, log) <==> key in ledger)
      && (key in ledger ==> Replay(ledger, log)[key] == ledger[key])
    decreases |log|
  {
    if log != [] {
      var next := if log[0].Record? then ledger[LedgerKey(Platform, log[0].url) := log[0].videoId] else ledger;
      forall i | 0 <= i < |log[1..]| && log[1..][i].Record? ensures log[1..][i].url != url {
        assert log[1..][i] == log[i + 1];
      }
      ReplayUntouched(next, log[1..], url);
    }
  }

  /** The cycle's log splits around the visit of `rows[k]`. */
  lemma CycleAround(rows: seq<ChannelRow>, k: nat, env: map<string, string>, snapshot: map<string, string>,
                    resolve: string -> Resolution, feed: string -> FeedReply, recordFails: string -> bool)
    requires k < |rows|
    ensures CycleLog(rows, env, snapshot, resolve, feed, recordFails)
         == CycleLog(rows[..k], env, snapshot, resolve, feed, recordFails)
          + VisitChannel(rows[k], env, snapshot, resolve, feed, recordFails).events
          + CycleLog(rows[k + 1..], env, snapshot, resolve, feed, recordFails)
  {
    var before := rows[..k];
    var later := rows[k + 1..];
    assert rows == before + [rows[k]] + later;
    CycleLogAppend(before + [rows[k]], later, env, snapshot, resolve, feed, recordFails);
    CycleLogAppend(before, [rows[k]], env, snapshot, resolve, feed, recordFails);
    assert [rows[k]][1..] == [];
  }

  /**
   * Deduplication across cycles: a channel announced and recorded in one
   * cycle is not announced again in the next cycle while its feed still
   * gives the same video, whatever the webhooks and failures then.
   */
  lemma NoRepeatAnnouncement(rows: seq<ChannelRow>, k: nat, env: map<string, string>, ledger: map<LedgerKey, string>,
                             resolve: string -> Resolution, feed: string -> FeedReply, recordFails: string -> bool,
                             env2: map<string, string>, resolve2: string -> Resolution, feed2: string -> FeedReply,
                             recordFails2: string -> bool)
    requires UniqueUrls(rows) && k < |rows|
    requires VisitChannel(rows[k], env, PlatformSlice(ledger, Platform), resolve, feed, recordFails).status == Notified
    requires LatestFor(rows[k].url, resolve2, feed2) == LatestFor(rows[k].url, resolve, feed)
    ensures var after := Replay(ledger, CycleLog(rows, env, PlatformSlice(ledger, Platform), resolve, feed, recordFails));
      VisitChannel(rows[k], env2, PlatformSlice(after, Platform), resolve2, feed2, recordFails2).events == []
  {
    var snapshot := PlatformSlice(ledger, Platform);
    var url := rows[k].url;
    var video := LatestFor(url, resolve, feed).video;
    var later := rows[k + 1..];
    var a := CycleLog(rows[..k], env, snapshot, resolve, feed, recordFails);
    var e := VisitChannel(rows[k], env, snapshot, resolve, feed, recordFails).events;
    var b := CycleLog(later, env, snapshot, resolve, feed, recordFails);
    CycleAround(rows, k, env, snapshot, resolve, feed, recordFails);
    ReplayAppend(ledger, a + e, b);
    ReplayAppend(ledger, a, e);
    assert e == [e[0], Record(url, video.videoId)];
    NotifyRecordReplay(Replay(ledger, a), e);
    forall j | 0 <= j < |later| ensures later[j].url != url {
      assert later[j] == rows[k + 1 + j];
    }
    NoRecordFor(later, url, env, snapshot, resolve, feed, recordFails);
    ReplayUntouched(Replay(Replay(ledger, a), e), b, url);
  }
}
