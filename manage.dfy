/**
 * The channel manager of src/manage.py: the `.env` rewriter that stores a
 * webhook url under its key, and the `add` and `edit` commands. The
 * `EnvFile` object holds the text of `.env` ("" when the file is absent);
 * `readlines` splits it into lines and `writelines` joins them back. The
 * typed answers to `input()` are parameters.
 */
module Manage {
  import opened Wrappers
  import opened Text
  import opened Db

  /** The line stored for a key: `key=url` and a newline. */
  function KeyLine(key: string, url: string): string {
    key + "=" + url + "\n"
  }

  /** `line.strip().startswith(f"{key}=")`: the line sets `key`. */
  predicate IsKeyLine(line: string, key: string) {
    StartsWith(Strip(line), key + "=")
  }

  /** Some line of the file sets `key`. */
  function HasKeyLine(lines: seq<string>, key: string): (b: bool)
    ensures b <==> exists i :: 0 <= i < |lines| && IsKeyLine(lines[i], key)
  {
    if lines == [] then false
    else IsKeyLine(lines[0], key) || HasKeyLine(lines[1..], key)
  }

  /** One line through the loop of `save_webhook_to_env`. */
  function RewriteLine(line: string, key: string, url: string): string {
    if IsKeyLine(line, key) then KeyLine(key, url) else line
  }

  /** The loop of `save_webhook_to_env`: every line that sets `key` becomes `key=url`. */
  function Replaced(lines: seq<string>, key: string, url: string): (r: seq<string>)
    ensures |r| == |lines|
    ensures forall i :: 0 <= i < |lines| ==> r[i] == RewriteLine(lines[i], key, url)
  {
    if lines == [] then []
    else [RewriteLine(lines[0], key, url)] + Replaced(lines[1..], key, url)
  }

  /**
   * The `.env` lines after `save_webhook_to_env(key, url)`: the rewritten
   * lines, then, when no line set the key, one appended `\nkey=url\n`.
   */
  function RewrittenEnv(lines: seq<string>, key: string, url: string): (r: seq<string>)
    ensures |r| == |lines| + (if HasKeyLine(lines, key) then 0 else 1)
    ensures r[..|lines|] == Replaced(lines, key, url)
    ensures !HasKeyLine(lines, key) ==> r[|lines|] == "\n" + KeyLine(key, url)
  {
    Replaced(lines, key, url) + if HasKeyLine(lines, key) then [] else ["\n" + KeyLine(key, url)]
  }

  /** The lines that do not set `key`, in their order. */
  function Others(lines: seq<string>, key: string): (r: seq<string>)
    ensures |r| <= |lines|
  {
    if lines == [] then []
    else (if IsKeyLine(lines[0], key) then [] else [lines[0]]) + Others(lines[1..], key)
  }

  /** `Others` keeps exactly the lines that do not set the key. */
  lemma {:induction false} OthersContents(lines: seq<string>, key: string)
    ensures forall x :: x in Others(lines, key) <==> x in lines && !IsKeyLine(x, key)
  {
    if lines != [] {
      OthersContents(lines[1..], key);
      assert lines == [lines[0]] + lines[1..];
    }
  }

  /** A line that ends with a newline. */
  predicate EndsLine(s: string) {
    s != [] && s[|s| - 1] == '\n'
  }

  /** A line as `readlines` yields it: not empty, with a newline at most at its end. */
  predicate IsLine(s: string) {
    s != [] && forall i :: 0 <= i < |s| - 1 ==> s[i] != '\n'
  }

  /** What `readlines` yields: lines, every one but the last ending with a newline. */
  predicate IsLineList(lines: seq<string>) {
    && (forall i :: 0 <= i < |lines| ==> IsLine(lines[i]))
    && (forall i :: 0 <= i < |lines| - 1 ==> EndsLine(lines[i]))
  }

  /** The length of the first line of `t`: up to and including its first newline, or all of `t`. */
  function FirstLineLength(t: string): (n: nat)
    requires t != []
    ensures 1 <= n <= |t|
    ensures forall i :: 0 <= i < n - 1 ==> t[i] != '\n'
    ensures n < |t| ==> t[n - 1] == '\n'
  {
    if t[0] == '\n' || |t| == 1 then 1 else 1 + FirstLineLength(t[1..])
  }

  /** `f.readlines()` on a file whose text is `t`. */
  function ReadLines(t: string): seq<string>
    decreases |t|
  {
    if t == [] then []
    else
      var n := FirstLineLength(t);
      [t[..n]] + ReadLines(t[n..])
  }

  /** `f.writelines(lines)`: the lines one after another. */
  function Join(lines: seq<string>): string {
    if lines == [] then "" else lines[0] + Join(lines[1..])
  }

  /** `.env` after `save_webhook_to_env(key, url)`: read, rewrite, write back. */
  function SavedEnv(text: string, key: string, url: string): string {
    Join(RewrittenEnv(ReadLines(text), key, url))
  }

  /** `readlines` cuts the text into lines and loses nothing: joined, they give the text back. */
  lemma {:induction false} ReadLinesSpec(t: string)
    ensures IsLineList(ReadLines(t)) && Join(ReadLines(t)) == t
  {
    ReadLinesAreLines(t);
    ReadLinesJoin(t);
  }

  lemma {:induction false} ReadLinesAreLines(t: string)
    ensures IsLineList(ReadLines(t))
    decreases |t|
  {
    if t != [] {
      var n := FirstLineLength(t);
      ReadLinesAreLines(t[n..]);
      FirstLineIsLine(t);
      if n == |t| {
        assert t[n..] == [];
      }
      LineThenLines(t[..n], ReadLines(t[n..]));
    }
  }

  lemma {:induction false} ReadLinesJoin(t: string)
    ensures Join(ReadLines(t)) == t
    decreases |t|
  {
    if t != [] {
      var n := FirstLineLength(t);
      var lines := ReadLines(t);
      ReadLinesJoin(t[n..]);
      assert lines[1..] == ReadLines(t[n..]);
      assert t[..n] + t[n..] == t;
    }
  }

  /** The first piece `readlines` cuts is a line, ending with a newline unless it is the whole text. */
  lemma {:induction false} FirstLineIsLine(t: string)
    requires t != []
    ensures IsLine(t[..FirstLineLength(t)])
    ensures FirstLineLength(t) < |t| ==> EndsLine(t[..FirstLineLength(t)])
  {
    var n := FirstLineLength(t);
    var line := t[..n];
    assert |line| == n;
    forall i | 0 <= i < |line| - 1 ensures line[i] != '\n' {
      assert line[i] == t[i];
    }
    if n < |t| {
      assert line[n - 1] == t[n - 1];
    }
  }

  /** A line in front of a line list is a line list, when the line ends with a newline or nothing follows. */
  lemma {:induction false} LineThenLines(line: string, rest: seq<string>)
    requires IsLine(line) && IsLineList(rest) && (rest == [] || EndsLine(line))
    ensures IsLineList([line] + rest) && Join([line] + rest) == line + Join(rest)
  {
    var lines := [line] + rest;
    assert lines[1..] == rest;
    forall i | 0 < i < |lines| ensures lines[i] == rest[i - 1] {
    }
  }

  lemma {:induction false} JoinAppend(a: seq<string>, b: seq<string>)
    ensures Join(a + b) == Join(a) + Join(b)
  {
    if a == [] {
      assert a + b == b;
    } else {
      assert (a + b)[1..] == a[1..] + b;
      JoinAppend(a[1..], b);
    }
  }

  /** A line that ends the text or ends with a newline is the first line `readlines` cuts. */
  lemma {:induction false} FirstLineOf(s: string, rest: string)
    requires IsLine(s) && (EndsLine(s) || rest == [])
    ensures FirstLineLength(s + rest) == |s|
  {
    var t := s + rest;
    if |s| > 1 {
      assert s[0] != '\n' && t[0] == s[0];
      assert t[1..] == s[1..] + rest;
      FirstLineOf(s[1..], rest);
    }
  }

  /** Reading back what `writelines` wrote gives the same lines, when they are lines. */
  lemma {:induction false} ReadBack(lines: seq<string>)
    requires IsLineList(lines)
    ensures ReadLines(Join(lines)) == lines
  {
    if lines != [] {
      var rest := lines[1..];
      assert IsLineList(rest) by {
        forall i | 0 <= i < |rest| - 1 ensures EndsLine(rest[i]) {
          assert rest[i] == lines[i + 1];
        }
        forall i | 0 <= i < |rest| ensures IsLine(rest[i]) {
          assert rest[i] == lines[i + 1];
        }
      }
      ReadBack(rest);
      var t := Join(lines);
      assert rest == [] ==> Join(rest) == [];
      FirstLineOf(lines[0], Join(rest));
      assert t[..|lines[0]|] == lines[0];
      assert t[|lines[0]|..] == Join(rest);
    }
  }

  /** A key that does not begin with whitespace; every key the commands pass is stripped. */
  predicate PlainKey(key: string) {
    key == [] || !IsSpace(key[0])
  }

  /** The `.env` file. */
  class EnvFile {
    var text: string

    constructor (text: string)
      ensures this.text == text
    {
      this.text := text;
    }

    /** `save_webhook_to_env(key, url)`. */
    method SaveWebhookToEnv(key: string, url: string)
      modifies this
      ensures text == SavedEnv(old(text), key, url)
    {
      var lines := ReadLines(text);
      var newLines: seq<string> := [];
      var found := false;
      var i := 0;
      while i < |lines|
        invariant 0 <= i <= |lines|
        invariant newLines == Replaced(lines[..i], key, url)
        invariant found <==> HasKeyLine(lines[..i], key)
      {
        assert lines[..i + 1] == lines[..i] + [lines[i]];
        ReplacedAppend(lines[..i], lines[i], key, url);
        HasKeyLineAppend(lines[..i], lines[i], key);
        var line := lines[i];
        if IsKeyLine(line, key) {
          newLines := newLines + [KeyLine(key, url)];
          found := true;
        } else {
          newLines := newLines + [line];
        }
        i := i + 1;
      }
      assert lines[..i] == lines;
      assert newLines == Replaced(lines, key, url) && (found <==> HasKeyLine(lines, key));
      if !found {
        newLines := newLines + ["\n" + KeyLine(key, url)];
      }
      assert newLines == RewrittenEnv(lines, key, url);
      text := Join(newLines);
    }
  }

  lemma {:induction false} ReplacedAppend(lines: seq<string>, line: string, key: string, url: string)
    ensures Replaced(lines + [line], key, url) == Replaced(lines, key, url) + [RewriteLine(line, key, url)]
  {
    var a := Replaced(lines + [line], key, url);
    var b := Replaced(lines, key, url) + [RewriteLine(line, key, url)];
    assert |a| == |b|;
    forall i | 0 <= i < |a| ensures a[i] == b[i] {
      if i < |lines| {
        assert (lines + [line])[i] == lines[i];
      }
    }
  }

  lemma HasKeyLineAppend(lines: seq<string>, line: string, key: string)
    ensures HasKeyLine(lines + [line], key) <==> HasKeyLine(lines, key) || IsKeyLine(line, key)
  {
    if HasKeyLine(lines, key) {
      var i :| 0 <= i < |lines| && IsKeyLine(lines[i], key);
      assert (lines + [line])[i] == lines[i];
    }
    assert (lines + [line])[|lines|] == line;
  }

  /** Leading whitespace does not change what a line strips to. */
  lemma StripSkipsNewline(s: string)
    ensures Strip("\n" + s) == Strip(s)
  {
    assert ("\n" + s)[1..] == s;
  }

  /** The lines the rewriter writes set the key, so a later save finds them. */
  lemma WrittenLinesSetKey(key: string, url: string)
    requires PlainKey(key)
    ensures IsKeyLine(KeyLine(key, url), key)
    ensures IsKeyLine("\n" + KeyLine(key, url), key)
  {
    var p := key + "=";
    assert p[0] == if key == [] then '=' else key[0];
    assert p[|p| - 1] == '=';
    assert KeyLine(key, url) == p + (url + "\n");
    StripKeepsPrefix(p, url + "\n");
    StripSkipsNewline(KeyLine(key, url));
  }

  /**
   * Lines that do not set the key survive the rewrite verbatim and in their
   * order: dropping the key lines before or after gives the same lines.
   */
  lemma {:induction false} OthersKeptInOrder(lines: seq<string>, key: string, url: string)
    requires PlainKey(key)
    ensures Others(RewrittenEnv(lines, key, url), key) == Others(lines, key)
  {
    WrittenLinesSetKey(key, url);
    OthersOfReplaced(lines, key, url);
    var tail := if HasKeyLine(lines, key) then [] else ["\n" + KeyLine(key, url)];
    OthersAppend(Replaced(lines, key, url), tail, key);
    assert Others(tail, key) == [] by {
      if tail != [] {
        assert tail[1..] == [];
      }
    }
  }

  lemma {:induction false} OthersOfReplaced(lines: seq<string>, key: string, url: string)
    requires IsKeyLine(KeyLine(key, url), key)
    ensures Others(Replaced(lines, key, url), key) == Others(lines, key)
  {
    if lines != [] {
      OthersOfReplaced(lines[1..], key, url);
      var r := Replaced(lines, key, url);
      assert r[1..] == Replaced(lines[1..], key, url);
    }
  }

  lemma {:induction false} OthersAppend(a: seq<string>, b: seq<string>, key: string)
    ensures Others(a + b, key) == Others(a, key) + Others(b, key)
  {
    if a != [] {
      OthersAppend(a[1..], b, key);
      assert (a + b)[1..] == a[1..] + b;
    } else {
      assert a + b == b;
    }
  }

  /** A file whose key lines already read `key=url` is written back unchanged. */
  lemma UnchangedWhenCurrent(lines: seq<string>, key: string, url: string)
    requires HasKeyLine(lines, key)
    requires forall i :: 0 <= i < |lines| && IsKeyLine(lines[i], key) ==> lines[i] == KeyLine(key, url)
    ensures RewrittenEnv(lines, key, url) == lines
  {
    assert Replaced(lines, key, url) == lines;
  }

  /** When some line set the key, a second rewrite of the rewritten lines changes nothing. */
  lemma {:induction false} SaveAgainWhenPresent(lines: seq<string>, key: string, url: string)
    requires HasKeyLine(lines, key) && IsKeyLine(KeyLine(key, url), key)
    ensures var once := RewrittenEnv(lines, key, url);
      HasKeyLine(once, key) && RewrittenEnv(once, key, url) == once
  {
    var once := Replaced(lines, key, url);
    assert RewrittenEnv(lines, key, url) == once;
    var i :| 0 <= i < |lines| && IsKeyLine(lines[i], key);
    assert IsKeyLine(once[i], key) by {
      assert once[i] == KeyLine(key, url);
    }
    forall j | 0 <= j < |once| && IsKeyLine(once[j], key) ensures once[j] == KeyLine(key, url) {
      assert once[j] == RewriteLine(lines[j], key, url);
    }
    UnchangedWhenCurrent(once, key, url);
  }

  /**
   * Saving the same key and url twice writes what saving once writes: the
   * second save reads the file back, finds the key, and rewrites each key
   * line to what it already is. Keys and urls come from `input().strip()`
   * and hold no newline.
   */
  lemma {:induction false} SaveIsIdempotent(text: string, key: string, url: string)
    requires PlainKey(key) && '\n' !in key && '\n' !in url
    ensures HasKeyLine(ReadLines(SavedEnv(text, key, url)), key)
    ensures SavedEnv(SavedEnv(text, key, url), key, url) == SavedEnv(text, key, url)
  {
    ReadLinesSpec(text);
    WrittenLinesSetKey(key, url);
    KeyLineIsLine(key, url);
    if HasKeyLine(ReadLines(text), key) {
      SaveAfterReplace(ReadLines(text), key, url);
    } else {
      SaveAfterAppend(ReadLines(text), key, url);
    }
  }

  /** The line the rewriter writes is one line, ending with a newline. */
  lemma {:induction false} KeyLineIsLine(key: string, url: string)
    requires '\n' !in key && '\n' !in url
    ensures IsLine(KeyLine(key, url)) && EndsLine(KeyLine(key, url))
  {
    var k := KeyLine(key, url);
    forall i | 0 <= i < |k| - 1 ensures k[i] != '\n' {
      if i < |key| {
        assert k[i] == key[i];
      } else if i > |key| {
        assert k[i] == url[i - |key| - 1];
      }
    }
  }

  /** When some line set the key, the file read back holds the rewritten lines, which a second save keeps. */
  lemma {:induction false} SaveAfterReplace(lines: seq<string>, key: string, url: string)
    requires IsLineList(lines) && HasKeyLine(lines, key)
    requires IsKeyLine(KeyLine(key, url), key) && IsLine(KeyLine(key, url)) && EndsLine(KeyLine(key, url))
    ensures var once := Join(RewrittenEnv(lines, key, url));
      HasKeyLine(ReadLines(once), key) && SavedEnv(once, key, url) == once
  {
    SaveAgainWhenPresent(lines, key, url);
    var once := RewrittenEnv(lines, key, url);
    assert once == Replaced(lines, key, url);
    forall i | 0 <= i < |once| ensures IsLine(once[i]) && (i < |once| - 1 ==> EndsLine(once[i])) {
      assert once[i] == RewriteLine(lines[i], key, url);
    }
    ReadBack(once);
  }

  /**
   * The lines `readlines` returns after `\n` + `tail` was appended to
   * `lines`: the newline is a blank line of its own, or ends an
   * unterminated last line; `tail` follows.
   */
  function AfterAppend(lines: seq<string>, tail: string): seq<string> {
    if lines == [] || EndsLine(lines[|lines| - 1]) then lines + ["\n", tail]
    else lines[..|lines| - 1] + [lines[|lines| - 1] + "\n", tail]
  }

  lemma {:induction false} JoinPair(a: string, b: string)
    ensures Join([a, b]) == a + b
  {
    assert [a, b][1..] == [b];
    assert [b][1..] == [];
    assert Join([b]) == b + "";
    assert b + "" == b;
  }

  /** Appending `\n` + `tail` to lines and reading back gives `AfterAppend`. */
  lemma {:induction false} ReadAfterAppend(lines: seq<string>, tail: string)
    requires IsLineList(lines) && IsLine(tail) && EndsLine(tail)
    ensures ReadLines(Join(lines + ["\n" + tail])) == AfterAppend(lines, tail)
  {
    var a := AfterAppend(lines, tail);
    JoinAppend(lines, ["\n" + tail]);
    assert Join(["\n" + tail]) == "\n" + tail by {
      assert ["\n" + tail][1..] == [];
    }
    if lines == [] || EndsLine(lines[|lines| - 1]) {
      JoinAppend(lines, ["\n", tail]);
      JoinPair("\n", tail);
      forall i | 0 <= i < |a| ensures IsLine(a[i]) && (i < |a| - 1 ==> EndsLine(a[i])) {
        if i < |lines| {
          assert a[i] == lines[i];
        }
      }
    } else {
      var init := lines[..|lines| - 1];
      var last := lines[|lines| - 1];
      assert lines == init + [last];
      JoinAppend(init, [last]);
      assert Join([last]) == last by {
        assert [last][1..] == [];
      }
      JoinAppend(init, [last + "\n", tail]);
      JoinPair(last + "\n", tail);
      forall i | 0 <= i < |a| ensures IsLine(a[i]) && (i < |a| - 1 ==> EndsLine(a[i])) {
        if i < |init| {
          assert a[i] == lines[i];
        }
      }
    }
    assert Join(a) == Join(lines + ["\n" + tail]);
    ReadBack(a);
  }

  /** A blank line sets no key. */
  lemma {:induction false} BlankLineSetsNoKey(key: string)
    ensures !IsKeyLine("\n", key)
  {
    assert StripStart("\n"[1..]) == [];
  }

  /** Ending a line that set no key with a newline does not make it set one. */
  lemma {:induction false} NewlineSetsNoKey(line: string, key: string)
    requires !IsKeyLine(line, key)
    ensures !IsKeyLine(line + "\n", key)
  {
    StripIgnoresTrailingSpace(line, '\n');
  }

  /** After the append, the only line setting the key is the appended one. */
  lemma {:induction false} AfterAppendKeyLines(lines: seq<string>, tail: string, key: string)
    requires !HasKeyLine(lines, key)
    ensures var a := AfterAppend(lines, tail);
      a[|a| - 1] == tail && forall i :: 0 <= i < |a| - 1 ==> !IsKeyLine(a[i], key)
  {
    var a := AfterAppend(lines, tail);
    BlankLineSetsNoKey(key);
    if lines != [] && !EndsLine(lines[|lines| - 1]) {
      NewlineSetsNoKey(lines[|lines| - 1], key);
    }
    forall i | 0 <= i < |a| - 1 ensures !IsKeyLine(a[i], key) {
      if i < |lines| - 1 {
        assert a[i] == lines[i];
      } else if i == |lines| - 1 && EndsLine(lines[i]) {
        assert a[i] == lines[i];
      }
    }
  }

  /**
   * When no line set the key, the first save appended `\nkey=url\n`; read
   * back, that is a blank line (or the newline that ends an unterminated
   * last line) and then `key=url\n`, which a second save leaves as it is.
   */
  lemma {:induction false} SaveAfterAppend(lines: seq<string>, key: string, url: string)
    requires IsLineList(lines) && !HasKeyLine(lines, key)
    requires IsKeyLine(KeyLine(key, url), key) && IsLine(KeyLine(key, url)) && EndsLine(KeyLine(key, url))
    ensures var once := Join(RewrittenEnv(lines, key, url));
      HasKeyLine(ReadLines(once), key) && SavedEnv(once, key, url) == once
  {
    var k := KeyLine(key, url);
    NothingToReplace(lines, key, url);
    assert RewrittenEnv(lines, key, url) == lines + ["\n" + k];
    ReadAfterAppend(lines, k);
    var a := AfterAppend(lines, k);
    AfterAppendKeyLines(lines, k, key);
    assert IsKeyLine(a[|a| - 1], key);
    UnchangedWhenCurrent(a, key, url);
    ReadLinesSpec(Join(lines + ["\n" + k]));
  }

  /** Without a line that sets the key, the loop changes no line. */
  lemma NothingToReplace(lines: seq<string>, key: string, url: string)
    requires !HasKeyLine(lines, key)
    ensures Replaced(lines, key, url) == lines
  {
    var r := Replaced(lines, key, url);
    forall i | 0 <= i < |lines| ensures r[i] == lines[i] {
      assert !IsKeyLine(lines[i], key);
    }
  }

  /** The `.env` key of the row with this name, scanning in order: the first match. */
  function KeyOf(rows: seq<ChannelRow>, name: string): (r: Option<string>)
    ensures r.Some? <==> NameTaken(rows, name)
    ensures r.Some? ==> exists i :: 0 <= i < |rows| && rows[i].name == name && rows[i].webhookEnv == r.value
  {
    if rows == [] then None
    else if rows[0].name == name then Some(rows[0].webhookEnv)
    else KeyOf(rows[1..], name)
  }

  /** Under the UNIQUE name constraint the key found is that of the one row with the name. */
  lemma KeyOfUnique(rows: seq<ChannelRow>, name: string, i: nat)
    requires UniqueNames(rows) && i < |rows| && rows[i].name == name
    ensures KeyOf(rows, name) == Some(rows[i].webhookEnv)
  {
  }

  /** Whether `add` got every field. */
  predicate AllGiven(name: string, url: string, webhookEnv: string, webhookUrl: string) {
    Strip(name) != "" && Strip(url) != "" && Strip(webhookEnv) != "" && Strip(webhookUrl) != ""
  }

  /**
   * `add`: the four answers are stripped; with any of them empty nothing is
   * written. Otherwise the channel is inserted (skipped when its name or url
   * exists) and the webhook is saved under its key either way.
   */
  method Add(db: Database, env: EnvFile, name: string, url: string, webhookEnv: string, webhookUrl: string)
    returns (accepted: bool)
    requires db.Valid()
    modifies db, env
    ensures db.Valid()
    ensures accepted <==> AllGiven(name, url, webhookEnv, webhookUrl)
    ensures !accepted ==> db.channels == old(db.channels) && env.text == old(env.text)
    ensures accepted ==> env.text == SavedEnv(old(env.text), Strip(webhookEnv), Strip(webhookUrl))
    ensures accepted && !NameTaken(old(db.channels), Strip(name)) && !UrlTaken(old(db.channels), Strip(url)) ==>
              db.channels == old(db.channels) + [ChannelRow(Strip(name), Strip(url), Strip(webhookEnv))]
    ensures accepted && (NameTaken(old(db.channels), Strip(name)) || UrlTaken(old(db.channels), Strip(url))) ==>
              db.channels == old(db.channels)
    ensures db.lastSeen == old(db.lastSeen)
  {
    var n := Strip(name);
    var u := Strip(url);
    var k := Strip(webhookEnv);
    var w := Strip(webhookUrl);
    if n == "" || u == "" || k == "" || w == "" {
      return false;
    }
    db.AddChannel(n, u, k);
    env.SaveWebhookToEnv(k, w);
    accepted := true;
  }

  /** How `edit` ended. */
  datatype EditOutcome =
    | NameMissing     // no channel name given
    | UpdateRaised    // `update_channel` raised IntegrityError, which `edit` does not catch
    | Updated

  /**
   * `edit`: with a name, the channel is updated, then the `.env` is
   * written: a new key with a new url saves the url under the new key; a
   * new url alone saves it under the key the channel now has (found by its
   * new name if one was given); a new key alone leaves `.env` alone.
   */
  method Edit(db: Database, env: EnvFile, name: string, newName: string, newUrl: string,
              newWebhook: string, newWebhookUrl: string)
    returns (outcome: EditOutcome)
    requires db.Valid()
    modifies db, env
    ensures db.Valid()
    ensures outcome == NameMissing <==> Strip(name) == ""
    ensures outcome != Updated ==> db.channels == old(db.channels) && env.text == old(env.text)
    ensures outcome == UpdateRaised <==>
              Strip(name) != "" && !Unique(Edited(old(db.channels), Strip(name), Strip(newName), Strip(newUrl), Strip(newWebhook)))
    ensures outcome == Updated ==>
              db.channels == Edited(old(db.channels), Strip(name), Strip(newName), Strip(newUrl), Strip(newWebhook))
    ensures outcome == Updated && Strip(newWebhook) != "" && Strip(newWebhookUrl) != "" ==>
              env.text == SavedEnv(old(env.text), Strip(newWebhook), Strip(newWebhookUrl))
    ensures outcome == Updated && Strip(newWebhook) == "" && Strip(newWebhookUrl) != "" ==>
              var target := if Strip(newName) != "" then Strip(newName) else Strip(name);
              env.text == match KeyOf(db.channels, target)
                           case Some(key) => SavedEnv(old(env.text), key, Strip(newWebhookUrl))
                           case None => old(env.text)
    ensures outcome == Updated && Strip(newWebhookUrl) == "" ==> env.text == old(env.text)
    ensures db.lastSeen == old(db.lastSeen)
  {
    var n := Strip(name);
    if n == "" {
      return NameMissing;
    }
    var nn := Strip(newName);
    var nu := Strip(newUrl);
    var nk := Strip(newWebhook);
    var nw := Strip(newWebhookUrl);
    var raised := db.UpdateChannel(n, nn, nu, nk);
    if raised {
      return UpdateRaised;
    }
    outcome := Updated;
    if nk != "" && nw != "" {
      env.SaveWebhookToEnv(nk, nw);
    } else if nw != "" && nk == "" {
      var target := if nn != "" then nn else n;
      var rows := db.GetChannels();
      var i := 0;
      while i < |rows|
        invariant 0 <= i <= |rows|
        invariant forall j :: 0 <= j < i ==> rows[j].name != target
        invariant env.text == old(env.text)
      {
        if rows[i].name == target {
          FoundKeyIsTableKey(db.channels, rows, i);
          env.SaveWebhookToEnv(rows[i].webhookEnv, nw);
          break;
        }
        i := i + 1;
      }
      if i == |rows| {
        NoRowNoKey(db.channels, rows, target);
      }
    }
  }

  /** The row the scan finds in a reordered copy of the table carries the table's key for that name. */
  lemma FoundKeyIsTableKey(table: seq<ChannelRow>, rows: seq<ChannelRow>, i: nat)
    requires UniqueNames(table) && multiset(rows) == multiset(table) && i < |rows|
    ensures KeyOf(table, rows[i].name) == Some(rows[i].webhookEnv)
  {
    assert rows[i] in multiset(table);
    var j :| 0 <= j < |table| && table[j] == rows[i];
    KeyOfUnique(table, rows[i].name, j);
  }

  /** A name no row of a reordered copy carries is not in the table either. */
  lemma NoRowNoKey(table: seq<ChannelRow>, rows: seq<ChannelRow>, name: string)
    requires multiset(rows) == multiset(table)
    requires forall j :: 0 <= j < |rows| ==> rows[j].name != name
    ensures KeyOf(table, name) == None
  {
    forall j | 0 <= j < |table| ensures table[j].name != name {
      assert table[j] in multiset(rows);
      var k :| 0 <= k < |rows| && rows[k] == table[j];
    }
  }
}
