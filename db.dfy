/**
 * The SQLite store of src/db.py: the `channels` table, whose `name` and `url`
 * columns are UNIQUE, and the `last_seen` table keyed by
 * (platform, channel_url). The database is an object whose two fields the
 * operations update in place; a statement that breaks a UNIQUE constraint
 * raises `IntegrityError`, and an uncommitted change is rolled back.
 */
module Db {
  import opened Wrappers

  /** One row of `channels`, without the autoincrement `id`. */
  datatype ChannelRow = ChannelRow(name: string, url: string, webhookEnv: string)

  /** The primary key of `last_seen`. */
  datatype LedgerKey = LedgerKey(platform: string, url: string)

  /** The UNIQUE constraint on `name`. */
  predicate UniqueNames(rows: seq<ChannelRow>) {
    forall i, j | 0 <= i < j < |rows| :: rows[i].name != rows[j].name
  }

  /** The UNIQUE constraint on `url`. */
  predicate UniqueUrls(rows: seq<ChannelRow>) {
    forall i, j | 0 <= i < j < |rows| :: rows[i].url != rows[j].url
  }

  /** Both UNIQUE constraints of `channels`: what SQLite checks after each statement. */
  predicate Unique(rows: seq<ChannelRow>) {
    UniqueNames(rows) && UniqueUrls(rows)
  }

  /** A column of `channels` that the statements select on or set. */
  datatype Column = NameColumn | UrlColumn | WebhookColumn

  /** The value a row holds in a column. */
  function Field(row: ChannelRow, col: Column): string {
    match col
    case NameColumn => row.name
    case UrlColumn => row.url
    case WebhookColumn => row.webhookEnv
  }

  /** `SELECT 1 FROM channels WHERE <col>=?` finds a row. */
  function Taken(rows: seq<ChannelRow>, col: Column, value: string): (b: bool)
    ensures b <==> exists i :: 0 <= i < |rows| && Field(rows[i], col) == value
  {
    if rows == [] then false
    else Field(rows[0], col) == value || Taken(rows[1..], col, value)
  }

  /** Some row has this name. */
  predicate NameTaken(rows: seq<ChannelRow>, name: string) {
    Taken(rows, NameColumn, name)
  }

  /** Some row has this url. */
  predicate UrlTaken(rows: seq<ChannelRow>, url: string) {
    Taken(rows, UrlColumn, url)
  }

  /** `DELETE FROM channels WHERE name = ?`: the rows not named `name`, in their order. */
  function WithoutName(rows: seq<ChannelRow>, name: string): (r: seq<ChannelRow>)
    ensures |r| <= |rows|
    ensures forall row :: row in r <==> row in rows && row.name != name
  {
    if rows == [] then []
    else if rows[0].name == name then WithoutName(rows[1..], name)
    else [rows[0]] + WithoutName(rows[1..], name)
  }

  function SetColumn(row: ChannelRow, col: Column, value: string): ChannelRow {
    match col
    case NameColumn => row.(name := value)
    case UrlColumn => row.(url := value)
    case WebhookColumn => row.(webhookEnv := value)
  }

  /** `UPDATE channels SET <col>=? WHERE name=?` before the constraint check. */
  function SetWhere(rows: seq<ChannelRow>, target: string, col: Column, value: string): seq<ChannelRow> {
    seq(|rows|, i requires 0 <= i < |rows| =>
      if rows[i].name == target then SetColumn(rows[i], col, value) else rows[i])
  }

  /**
   * The rows `update_channel(name, newName, newUrl, newWebhook)` edits: the
   * row named `name` and, since the later statements select by `newName`
   * once it is given, a row already named `newName`.
   */
  predicate Targeted(row: ChannelRow, name: string, newName: string) {
    row.name == name || (newName != "" && row.name == newName)
  }

  /** A targeted row after the edit: each non-empty new value replaces its column. */
  function Applied(row: ChannelRow, newName: string, newUrl: string, newWebhook: string): ChannelRow {
    ChannelRow(if newName != "" then newName else row.name,
               if newUrl != "" then newUrl else row.url,
               if newWebhook != "" then newWebhook else row.webhookEnv)
  }

  /** The whole table after `update_channel`, were no constraint checked. */
  function Edited(rows: seq<ChannelRow>, name: string, newName: string, newUrl: string, newWebhook: string)
    : seq<ChannelRow>
  {
    seq(|rows|, i requires 0 <= i < |rows| =>
      if Targeted(rows[i], name, newName) then Applied(rows[i], newName, newUrl, newWebhook) else rows[i])
  }

  /** The rows of `last_seen` grouped by platform, as `get_last_seen()` builds them. */
  ghost predicate Groups(nested: map<string, map<string, string>>, flat: map<LedgerKey, string>) {
    && (forall k :: k in flat ==>
          k.platform in nested && k.url in nested[k.platform] && nested[k.platform][k.url] == flat[k])
    && (forall p, u :: p in nested && u in nested[p] ==> LedgerKey(p, u) in flat)
    && (forall p :: p in nested ==> nested[p] != map[])
  }

  /** `data.setdefault(platform, {})[url] = vid`. */
  function WithRow(data: map<string, map<string, string>>, k: LedgerKey, vid: string): map<string, map<string, string>> {
    var group := if k.platform in data then data[k.platform] else map[];
    data[k.platform := group[k.url := vid]]
  }

  /** `data` groups exactly the rows of `flat` outside `remaining`. */
  ghost predicate GroupedExcept(data: map<string, map<string, string>>, flat: map<LedgerKey, string>,
                                remaining: set<LedgerKey>)
  {
    && (forall k :: k in flat && k !in remaining ==>
          k.platform in data && k.url in data[k.platform] && data[k.platform][k.url] == flat[k])
    && (forall p, u :: p in data && u in data[p] ==> LedgerKey(p, u) in flat && LedgerKey(p, u) !in remaining)
    && (forall p :: p in data ==> data[p] != map[])
  }

  /** Grouping one more row of `flat` keeps `GroupedExcept`. */
  lemma GroupOneMore(data: map<string, map<string, string>>, flat: map<LedgerKey, string>,
                     remaining: set<LedgerKey>, k: LedgerKey)
    requires GroupedExcept(data, flat, remaining) && k in remaining && remaining <= flat.Keys
    ensures GroupedExcept(WithRow(data, k, flat[k]), flat, remaining - {k})
  {
    var d := WithRow(data, k, flat[k]);
    forall j | j in flat && j !in remaining - {k}
      ensures j.platform in d && j.url in d[j.platform] && d[j.platform][j.url] == flat[j]
    {
      if j != k {
        assert j.platform in data && j.url in data[j.platform];
      }
    }
    forall p | p in d ensures d[p] != map[] {
      if p == k.platform {
        assert k.url in d[p];
      }
    }
    forall p, u | p in d && u in d[p] ensures LedgerKey(p, u) in flat && LedgerKey(p, u) !in remaining - {k} {
      if p == k.platform && u == k.url {
        assert LedgerKey(p, u) == k;
      } else {
        assert p in data && u in data[p];
      }
    }
  }

  /** The entries of one platform: `data.get(platform, {})` of the grouped rows. */
  function PlatformSlice(flat: map<LedgerKey, string>, platform: string): (r: map<string, string>)
    ensures forall u :: u in r <==> LedgerKey(platform, u) in flat
    ensures forall u :: u in r ==> r[u] == flat[LedgerKey(platform, u)]
  {
    var urls := set k | k in flat && k.platform == platform :: k.url;
    map u | u in urls :: flat[LedgerKey(platform, u)]
  }

  /**
   * The grouping is determined by the rows: two nested maps that both group
   * `flat` are equal, so `get_last_seen()` has exactly one possible result.
   */
  lemma GroupsUnique(a: map<string, map<string, string>>, b: map<string, map<string, string>>,
                     flat: map<LedgerKey, string>)
    requires Groups(a, flat) && Groups(b, flat)
    ensures a == b
  {
    forall p | p in a ensures p in b && a[p] == b[p] {
      GroupIsSlice(a, flat, p);
      GroupIsSlice(b, flat, p);
    }
    forall p | p in b ensures p in a {
      GroupIsSlice(b, flat, p);
      GroupIsSlice(a, flat, p);
    }
  }

  /** In a grouping, a platform's map is its slice, and a platform without rows is absent. */
  lemma GroupIsSlice(nested: map<string, map<string, string>>, flat: map<LedgerKey, string>, p: string)
    requires Groups(nested, flat)
    ensures p in nested ==> nested[p] == PlatformSlice(flat, p)
    ensures p !in nested <==> PlatformSlice(flat, p) == map[]
  {
    var slice := PlatformSlice(flat, p);
    if p in nested {
      var u :| u in nested[p];
      assert u in slice;
      assert nested[p] == slice;
    }
  }

  /** What `get_last_seen(platform)` returns: every platform, or one platform's entries. */
  datatype LastSeenView =
    | AllPlatforms(byPlatform: map<string, map<string, string>>)
    | OnePlatform(byUrl: map<string, string>)

  /** The database file `data/discord_monitor.db` with its two tables. */
  class Database {
    var channels: seq<ChannelRow>
    var lastSeen: map<LedgerKey, string>

    ghost predicate Valid()
      reads this
    {
      Unique(channels)
    }

    /** `init_db` on a fresh file: both tables exist and are empty. */
    constructor ()
      ensures Valid() && channels == [] && lastSeen == map[]
    {
      channels := [];
      lastSeen := map[];
    }

    /**
     * `add_channel`: the INSERT succeeds unless the name or the url is
     * already present, in which case the IntegrityError is swallowed and
     * the table is left as it was.
     */
    method AddChannel(name: string, url: string, webhookEnv: string)
      requires Valid()
      modifies this
      ensures Valid()
      ensures NameTaken(old(channels), name) || UrlTaken(old(channels), url) ==> channels == old(channels)
      ensures !NameTaken(old(channels), name) && !UrlTaken(old(channels), url) ==>
                channels == old(channels) + [ChannelRow(name, url, webhookEnv)]
      ensures lastSeen == old(lastSeen)
    {
      var next := channels + [ChannelRow(name, url, webhookEnv)];
      if Unique(next) {
        forall i | 0 <= i < |channels| ensures channels[i].name != name && channels[i].url != url {
          assert next[i] == channels[i] && next[|channels|].name == name && next[|channels|].url == url;
        }
        channels := next;
      } else {
        // IntegrityError: reported and skipped
        assert NameTaken(channels, name) || UrlTaken(channels, url) by {
          var i, j :| 0 <= i < j < |next| && (next[i].name == next[j].name || next[i].url == next[j].url);
          assert j == |channels|;
        }
      }
    }

    /** `get_channels`: every row once; the SELECT has no ORDER BY, so no order is promised. */
    method GetChannels() returns (rows: seq<ChannelRow>)
      requires Valid()
      ensures multiset(rows) == multiset(channels)
      ensures Unique(rows)
    {
      rows := channels;
    }

    /** `remove_channel`: deletes the row with that name, if any. */
    method RemoveChannel(name: string)
      requires Valid()
      modifies this
      ensures Valid()
      ensures channels == WithoutName(old(channels), name)
      ensures lastSeen == old(lastSeen)
    {
      RemoveKeepsUnique(channels, name);
      channels := WithoutName(channels, name);
    }

    /**
     * `update_channel`: up to three UPDATE statements, the later ones
     * selecting by the new name once it is given. A statement that breaks a
     * UNIQUE constraint raises; nothing was committed, so the table is left
     * as it was. Otherwise the table is `Edited`.
     */
    method UpdateChannel(name: string, newName: string, newUrl: string, newWebhook: string)
      returns (raised: bool)
      requires Valid()
      modifies this
      ensures Valid()
      ensures raised <==> !Unique(Edited(old(channels), name, newName, newUrl, newWebhook))
      ensures channels == if raised then old(channels) else Edited(old(channels), name, newName, newUrl, newWebhook)
      ensures lastSeen == old(lastSeen)
    {
      ghost var goal := Edited(channels, name, newName, newUrl, newWebhook);
      var rows := channels;
      var target := name;
      if newName != "" {
        var next := SetWhere(rows, target, NameColumn, newName);
        NameStepAgrees(channels, name, newName, newUrl, newWebhook);
        if !Unique(next) {
          return true;
        }
        rows := next;
        target := newName;
      }
      if newUrl != "" {
        var next := SetWhere(rows, target, UrlColumn, newUrl);
        UrlStepAgrees(channels, name, newName, newUrl, newWebhook, rows);
        if !Unique(next) {
          return true;
        }
        rows := next;
      }
      if newWebhook != "" {
        rows := SetWhere(rows, target, WebhookColumn, newWebhook);
      }
      assert rows == goal;
      channels := rows;
      raised := false;
    }

    /** `get_last_seen_for_channel`: the recorded id, or None when there is no row. */
    function GetLastSeenForChannel(url: string, platform: string := "youtube"): (r: Option<string>)
      reads this
      ensures r.Some? <==> LedgerKey(platform, url) in lastSeen
      ensures r.Some? ==> r.value == lastSeen[LedgerKey(platform, url)]
    {
      var key := LedgerKey(platform, url);
      if key in lastSeen then Some(lastSeen[key]) else None
    }

    /** `update_last_seen`: INSERT OR REPLACE of one key; every other row stays. */
    method UpdateLastSeen(url: string, videoId: string, platform: string := "youtube")
      modifies this
      ensures lastSeen.Keys == old(lastSeen).Keys + {LedgerKey(platform, url)}
      ensures GetLastSeenForChannel(url, platform) == Some(videoId)
      ensures forall k :: k in old(lastSeen) && k != LedgerKey(platform, url) ==> lastSeen[k] == old(lastSeen)[k]
      ensures channels == old(channels)
    {
      lastSeen := lastSeen[LedgerKey(platform, url) := videoId];
    }

    /** `channel_exists(url)`. */
    function ChannelExists(url: string): (b: bool)
      reads this
      ensures b <==> exists i :: 0 <= i < |channels| && channels[i].url == url
    {
      UrlTaken(channels, url)
    }

    /**
     * `get_last_seen(platform)`: every row grouped by platform, then, when a
     * platform is given ("" stands for None), that platform's map or `{}`.
     */
    method GetLastSeen(platform: string := "") returns (view: LastSeenView)
      ensures platform == "" ==> view.AllPlatforms? && Groups(view.byPlatform, lastSeen)
      ensures platform != "" ==> view == OnePlatform(PlatformSlice(lastSeen, platform))
    {
      var data: map<string, map<string, string>> := map[];
      var remaining := lastSeen.Keys;
      while remaining != {}
        invariant remaining <= lastSeen.Keys
        invariant GroupedExcept(data, lastSeen, remaining)
        decreases |remaining|
      {
        var k :| k in remaining;
        GroupOneMore(data, lastSeen, remaining, k);
        data := WithRow(data, k, lastSeen[k]);
        remaining := remaining - {k};
      }
      GroupIsSlice(data, lastSeen, platform);
      if platform != "" {
        view := OnePlatform(if platform in data then data[platform] else map[]);
      } else {
        view := AllPlatforms(data);
      }
    }
  }

  /** Deleting rows keeps both UNIQUE constraints. */
  lemma {:induction false} RemoveKeepsUnique(rows: seq<ChannelRow>, name: string)
    requires Unique(rows)
    ensures Unique(WithoutName(rows, name))
  {
    if rows != [] {
      var rest := rows[1..];
      RemoveKeepsUnique(rest, name);
      if rows[0].name != name {
        var w := WithoutName(rest, name);
        var r := [rows[0]] + w;
        forall i, j | 0 <= i < j < |r| ensures r[i].name != r[j].name && r[i].url != r[j].url {
          if i == 0 {
            assert r[j] in rest;
          }
        }
      }
    }
  }

  /** After the first UPDATE, names already agree with `Edited` and urls are the old ones. */
  lemma NameStepAgrees(rows: seq<ChannelRow>, name: string, newName: string, newUrl: string, newWebhook: string)
    requires Unique(rows) && newName != ""
    ensures var s := SetWhere(rows, name, NameColumn, newName);
      var e := Edited(rows, name, newName, newUrl, newWebhook);
      && |s| == |e| == |rows|
      && (forall i :: 0 <= i < |s| ==> s[i].name == e[i].name && s[i].url == rows[i].url)
      && (Unique(s) <==> UniqueNames(e))
  {
  }

  /**
   * The url UPDATE selects by the current target name, which picks exactly
   * the `Targeted` rows; after it, names and urls agree with `Edited`.
   */
  lemma UrlStepAgrees(rows: seq<ChannelRow>, name: string, newName: string, newUrl: string, newWebhook: string,
                      cur: seq<ChannelRow>)
    requires Unique(rows) && newUrl != ""
    requires cur == if newName != "" then SetWhere(rows, name, NameColumn, newName) else rows
    ensures var s := SetWhere(cur, if newName != "" then newName else name, UrlColumn, newUrl);
      var e := Edited(rows, name, newName, newUrl, newWebhook);
      && |s| == |e| == |rows|
      && (forall i :: 0 <= i < |s| ==> s[i].name == e[i].name && s[i].url == e[i].url)
      && (Unique(s) <==> Unique(e))
  {
    var s := SetWhere(cur, if newName != "" then newName else name, UrlColumn, newUrl);
    var e := Edited(rows, name, newName, newUrl, newWebhook);
    forall i | 0 <= i < |s| ensures s[i].name == e[i].name && s[i].url == e[i].url {
      if newName != "" {
        assert cur[i].name == newName <==> Targeted(rows[i], name, newName);
      }
    }
    SameKeysSameUnique(s, e);
  }

  /** Whether the constraints hold depends only on the `name` and `url` columns. */
  lemma SameKeysSameUnique(a: seq<ChannelRow>, b: seq<ChannelRow>)
    requires |a| == |b|
    requires forall i :: 0 <= i < |a| ==> a[i].name == b[i].name && a[i].url == b[i].url
    ensures Unique(a) <==> Unique(b)
  {
  }

  /** `update_channel` with blank fields keeps those columns in every row, and keeps the row count. */
  lemma BlankFieldsKeepColumns(rows: seq<ChannelRow>, name: string, newName: string, newUrl: string, newWebhook: string)
    ensures var e := Edited(rows, name, newName, newUrl, newWebhook);
      && |e| == |rows|
      && (newName == "" ==> forall i :: 0 <= i < |e| ==> e[i].name == rows[i].name)
      && (newUrl == "" ==> forall i :: 0 <= i < |e| ==> e[i].url == rows[i].url)
      && (newWebhook == "" ==> forall i :: 0 <= i < |e| ==> e[i].webhookEnv == rows[i].webhookEnv)
  {
  }

  /**
   * A rename carries the url and webhook updates along: the row named
   * `name` ends with the new name and every given value, and rows that are
   * named neither `name` nor `newName` are untouched.
   */
  lemma RenameCarriesUpdates(rows: seq<ChannelRow>, name: string, newName: string, newUrl: string, newWebhook: string,
                             i: nat)
    requires i < |rows| && rows[i].name == name
    ensures var e := Edited(rows, name, newName, newUrl, newWebhook);
      && e[i] == ChannelRow(if newName != "" then newName else name,
                            if newUrl != "" then newUrl else rows[i].url,
                            if newWebhook != "" then newWebhook else rows[i].webhookEnv)
      && forall j :: 0 <= j < |rows| && rows[j].name != name && (newName == "" || rows[j].name != newName) ==>
           e[j] == rows[j]
  {
  }

  /** An unknown name, with no new name or a new name nobody has, changes nothing. */
  lemma {:induction false} UnknownNameChangesNothing(rows: seq<ChannelRow>, name: string, newName: string,
                                                     newUrl: string, newWebhook: string)
    requires !NameTaken(rows, name) && (newName == "" || !NameTaken(rows, newName))
    ensures Edited(rows, name, newName, newUrl, newWebhook) == rows
  {
    var e := Edited(rows, name, newName, newUrl, newWebhook);
    forall i | 0 <= i < |rows| ensures e[i] == rows[i] {
      assert !Targeted(rows[i], name, newName);
    }
  }

  /**
   * An unknown name with a new name that another row already has edits that
   * row: once `name` is reassigned, the url and webhook statements select by
   * the new name.
   */
  lemma UnknownNameEditsNewNameRow(rows: seq<ChannelRow>, name: string, newName: string,
                                   newUrl: string, newWebhook: string, j: nat)
    requires !NameTaken(rows, name) && newName != "" && j < |rows| && rows[j].name == newName
    ensures Edited(rows, name, newName, newUrl, newWebhook)[j]
         == ChannelRow(newName, if newUrl != "" then newUrl else rows[j].url,
                       if newWebhook != "" then newWebhook else rows[j].webhookEnv)
  {
  }

  /** Renaming a channel to the name of another channel violates UNIQUE, so `update_channel` raises. */
  lemma RenameOntoTakenNameRaises(rows: seq<ChannelRow>, name: string, newName: string,
                                  newUrl: string, newWebhook: string, i: nat, j: nat)
    requires i < |rows| && j < |rows| && i != j && rows[i].name == name && rows[j].name == newName && newName != ""
    ensures !Unique(Edited(rows, name, newName, newUrl, newWebhook))
  {
    var e := Edited(rows, name, newName, newUrl, newWebhook);
    assert e[i].name == newName == e[j].name;
  }

  /** Running the same edit twice gives what running it once gives. */
  lemma EditIsIdempotent(rows: seq<ChannelRow>, name: string, newName: string, newUrl: string, newWebhook: string)
    ensures var e := Edited(rows, name, newName, newUrl, newWebhook);
      Edited(e, name, newName, newUrl, newWebhook) == e
  {
    var e := Edited(rows, name, newName, newUrl, newWebhook);
    var e2 := Edited(e, name, newName, newUrl, newWebhook);
    forall i | 0 <= i < |e| ensures e2[i] == e[i] {
      if Targeted(rows[i], name, newName) {
        assert Targeted(e[i], name, newName);
      }
    }
  }

  /** `remove_channel(name)` leaves no row with that name and keeps every other row. */
  lemma RemovedNameIsGone(rows: seq<ChannelRow>, name: string)
    ensures !NameTaken(WithoutName(rows, name), name)
    ensures forall i :: 0 <= i < |rows| && rows[i].name != name ==> rows[i] in WithoutName(rows, name)
  {
    var w := WithoutName(rows, name);
    forall i | 0 <= i < |w| ensures w[i].name != name {
      assert w[i] in w;
    }
  }
}
