/**
 * The JSON ledger of src/storage.py, the earlier store of last-seen ids:
 * `data/last_seen.json` holds a map platform -> (channel url -> video id).
 * A file that cannot be used reads as a default value.
 */
module Storage {
  /** A JSON file as `load_json` finds it. */
  datatype JsonFile<T> =
    | Missing          // the path does not exist
    | Parsed(data: T)  // the file decodes
    | Corrupt          // json.JSONDecodeError
    | ReadError        // any other exception while opening or reading

  /** `load_json(path, default)`: every failure falls back to the default; nothing escapes. */
  function LoadJson<T>(file: JsonFile<T>, default: T): (r: T)
    ensures file.Parsed? ==> r == file.data
    ensures !file.Parsed? ==> r == default
  {
    match file
    case Parsed(data) => data
    case _ => default
  }

  /** The ledger: platform -> (channel url -> last seen video id). */
  type Ledger = map<string, map<string, string>>

  /** The ledger a missing or unusable file stands for. */
  const DefaultLastSeen: Ledger := map["youtube" := map[], "reddit" := map[], "web" := map[]]

  /** `get_last_seen()`. */
  function GetLastSeen(file: JsonFile<Ledger>): (r: Ledger)
    ensures file.Parsed? ==> r == file.data
    ensures !file.Parsed? ==> r.Keys == {"youtube", "reddit", "web"}
    ensures !file.Parsed? ==> forall p :: p in r ==> r[p] == map[]
  {
    LoadJson(file, DefaultLastSeen)
  }

  /**
   * The ledger after recording `videoId` for `url` under `platform`: the
   * platform is created empty when missing, then the one entry is set.
   */
  function Upserted(data: Ledger, url: string, videoId: string, platform: string): (r: Ledger)
    ensures r.Keys == data.Keys + {platform}
    ensures url in r[platform] && r[platform][url] == videoId
    ensures forall p :: p in data && p != platform ==> r[p] == data[p]
    ensures r[platform].Keys == (if platform in data then data[platform].Keys else {}) + {url}
    ensures platform in data ==>
              forall u :: u in data[platform] && u != url ==> r[platform][u] == data[platform][u]
  {
    data[platform := GroupOf(data, platform)[url := videoId]]
  }

  /** `data.get(platform, {})`. */
  function GroupOf(data: Ledger, platform: string): map<string, string> {
    if platform in data then data[platform] else map[]
  }

  /** `data/last_seen.json`. */
  class LastSeenStore {
    var file: JsonFile<Ledger>

    constructor (file: JsonFile<Ledger>)
      ensures this.file == file
    {
      this.file := file;
    }

    /** `update_last_seen(url, videoId, platform)`: load, update in place, save. */
    method UpdateLastSeen(url: string, videoId: string, platform: string := "youtube")
      modifies this
      ensures file == Parsed(Upserted(GetLastSeen(old(file)), url, videoId, platform))
    {
      ghost var loaded := GetLastSeen(file);
      var data := GetLastSeen(file);
      if platform !in data {
        data := data[platform := map[]];
      }
      data := data[platform := data[platform][url := videoId]];
      assert data == Upserted(loaded, url, videoId, platform);
      file := Parsed(data);
    }
  }

  /** Recording the same id again changes nothing. */
  lemma UpsertIsIdempotent(data: Ledger, url: string, videoId: string, platform: string)
    ensures Upserted(Upserted(data, url, videoId, platform), url, videoId, platform)
         == Upserted(data, url, videoId, platform)
  {
    var once := Upserted(data, url, videoId, platform);
    assert once[platform][url := videoId] == once[platform];
  }

  /** Records for different keys commute: the ledger keeps one id per (platform, url). */
  lemma UpsertsCommute(data: Ledger, u1: string, v1: string, p1: string, u2: string, v2: string, p2: string)
    requires p1 != p2 || u1 != u2
    ensures Upserted(Upserted(data, u1, v1, p1), u2, v2, p2) == Upserted(Upserted(data, u2, v2, p2), u1, v1, p1)
  {
    if p1 == p2 {
      SamePlatformCommute(data, u1, v1, u2, v2, p1);
    } else {
      OtherPlatformsCommute(data, u1, v1, p1, u2, v2, p2);
    }
  }

  lemma SamePlatformCommute(data: Ledger, u1: string, v1: string, u2: string, v2: string, p: string)
    requires u1 != u2
    ensures Upserted(Upserted(data, u1, v1, p), u2, v2, p) == Upserted(Upserted(data, u2, v2, p), u1, v1, p)
  {
    var g := GroupOf(data, p);
    var both := g[u1 := v1][u2 := v2];
    assert both == g[u2 := v2][u1 := v1];
    UpsertTwice(data, u1, v1, u2, v2, p);
    UpsertTwice(data, u2, v2, u1, v1, p);
  }

  /** Two records under one platform set both entries of its group. */
  lemma UpsertTwice(data: Ledger, u1: string, v1: string, u2: string, v2: string, p: string)
    ensures Upserted(Upserted(data, u1, v1, p), u2, v2, p) == data[p := GroupOf(data, p)[u1 := v1][u2 := v2]]
  {
    var once := Upserted(data, u1, v1, p);
    assert GroupOf(once, p) == GroupOf(data, p)[u1 := v1];
  }

  lemma OtherPlatformsCommute(data: Ledger, u1: string, v1: string, p1: string, u2: string, v2: string, p2: string)
    requires p1 != p2
    ensures Upserted(Upserted(data, u1, v1, p1), u2, v2, p2) == Upserted(Upserted(data, u2, v2, p2), u1, v1, p1)
  {
    var a := Upserted(data, u1, v1, p1);
    var b := Upserted(data, u2, v2, p2);
    assert GroupOf(a, p2) == GroupOf(data, p2) && GroupOf(b, p1) == GroupOf(data, p1);
    assert a[p2 := GroupOf(data, p2)[u2 := v2]] == b[p1 := GroupOf(data, p1)[u1 := v1]];
  }

  /** The first record on an unusable file keeps the three default platforms. */
  lemma FirstRecordKeepsDefaults(file: JsonFile<Ledger>, url: string, videoId: string)
    requires !file.Parsed?
    ensures var r := Upserted(GetLastSeen(file), url, videoId, "youtube");
      && r.Keys == {"youtube", "reddit", "web"}
      && r["youtube"] == map[url := videoId]
      && r["reddit"] == map[] && r["web"] == map[]
  {
    var r := Upserted(GetLastSeen(file), url, videoId, "youtube");
    assert r["youtube"].Keys == {url};
  }
}
