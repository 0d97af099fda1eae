/**
 * The parts of Python's `str` that the bot relies on: `isspace`, `strip`,
 * `startswith`, the `in` substring test and the last piece of `split`.
 */
module Text {
  import opened Wrappers

  /** Python's `str.isspace` on one character: the characters `str.strip()` removes. */
  predicate IsSpace(c: char) {
    || ('\t' <= c <= '\r')
    || ('\U{1C}' <= c <= '\U{1F}')
    || c == ' '
    || c == '\U{85}'
    || c == '\U{A0}'
    || c == '\U{1680}'
    || ('\U{2000}' <= c <= '\U{200A}')
    || c == '\U{2028}'
    || c == '\U{2029}'
    || c == '\U{202F}'
    || c == '\U{205F}'
    || c == '\U{3000}'
  }

  /** `s.lstrip()`. */
  function StripStart(s: string): string {
    if s != [] && IsSpace(s[0]) then StripStart(s[1..]) else s
  }

  /** `s.rstrip()`. */
  function StripEnd(s: string): string {
    if s != [] && IsSpace(s[|s| - 1]) then StripEnd(s[..|s| - 1]) else s
  }

  /** `s.strip()`. */
  function Strip(s: string): string {
    StripEnd(StripStart(s))
  }

  /** `lstrip` drops the leading whitespace and nothing else. */
  lemma {:induction false} StripStartSpec(s: string)
    ensures var r := StripStart(s);
      && |r| <= |s| && r == s[|s| - |r|..]
      && (forall i :: 0 <= i < |s| - |r| ==> IsSpace(s[i]))
      && (r == [] || !IsSpace(r[0]))
  {
    if s != [] && IsSpace(s[0]) {
      var t := s[1..];
      StripStartSpec(t);
      var r := StripStart(t);
      assert StripStart(s) == r;
      assert t[|t| - |r|..] == s[|s| - |r|..];
      forall i | 0 <= i < |s| - |r| ensures IsSpace(s[i]) {
        if i > 0 {
          assert s[i] == t[i - 1];
        }
      }
    }
  }

  /** `rstrip` drops the trailing whitespace and nothing else. */
  lemma {:induction false} StripEndSpec(s: string)
    ensures var r := StripEnd(s);
      && |r| <= |s| && r == s[..|r|]
      && (forall i :: |r| <= i < |s| ==> IsSpace(s[i]))
      && (r == [] || !IsSpace(r[|r| - 1]))
  {
    if s != [] && IsSpace(s[|s| - 1]) {
      StripEndSpec(s[..|s| - 1]);
    }
  }

  /**
   * `strip` removes whitespace at both ends and nothing else: what is left
   * is a piece of `s` with no whitespace at either end, and a string
   * without whitespace at its ends is left as it is.
   */
  lemma StripSpec(s: string)
    ensures var t := StripStart(s); var r := Strip(s);
      && |r| <= |t| <= |s|
      && t == s[|s| - |t|..] && r == t[..|r|]
      && (forall i :: 0 <= i < |s| - |t| ==> IsSpace(s[i]))
      && (forall i :: |r| <= i < |t| ==> IsSpace(t[i]))
      && (r == [] || (!IsSpace(r[0]) && !IsSpace(r[|r| - 1])))
    ensures s == [] || (!IsSpace(s[0]) && !IsSpace(s[|s| - 1])) ==> Strip(s) == s
  {
    var t := StripStart(s);
    StripStartSpec(s);
    StripEndSpec(t);
    var r := Strip(s);
    if r != [] {
      assert r[0] == t[0];
    }
  }

  /** `lstrip` of a string with one more whitespace character at its end. */
  lemma {:induction false} StripStartAppendSpace(s: string, c: char)
    requires IsSpace(c)
    ensures StripStart(s + [c]) == if StripStart(s) == [] then [] else StripStart(s) + [c]
  {
    if s == [] {
      assert ([] + [c])[1..] == [];
    } else if IsSpace(s[0]) {
      assert (s + [c])[1..] == s[1..] + [c];
      StripStartAppendSpace(s[1..], c);
    }
  }

  /** Trailing whitespace makes no difference to `strip`. */
  lemma {:induction false} StripIgnoresTrailingSpace(s: string, c: char)
    requires IsSpace(c)
    ensures Strip(s + [c]) == Strip(s)
  {
    StripStartAppendSpace(s, c);
    var t := StripStart(s);
    if t != [] {
      assert (t + [c])[..|t|] == t;
    }
  }

  /** `s.startswith(p)`. */
  predicate StartsWith(s: string, p: string) {
    |p| <= |s| && s[..|p|] == p
  }

  /** `w` occurs in `s` at index `i`. */
  predicate OccursAt(s: string, w: string, i: nat) {
    i + |w| <= |s| && s[i..i + |w|] == w
  }

  /** `w` occurs nowhere in `s`. */
  ghost predicate Free(s: string, w: string) {
    forall i: nat :: !OccursAt(s, w, i)
  }

  /** `s.find(w, i)`: the first index at or after `i` where `w` occurs. */
  function IndexFrom(s: string, w: string, i: nat): (r: Option<nat>)
    requires i <= |s|
    decreases |s| - i
    ensures r.Some? ==> i <= r.value && OccursAt(s, w, r.value)
    ensures forall k: nat :: i <= k && (r.None? || k < r.value) ==> !OccursAt(s, w, k)
  {
    if OccursAt(s, w, i) then Some(i)
    else if i == |s| then None
    else IndexFrom(s, w, i + 1)
  }

  /** `w in s`. */
  function Contains(s: string, w: string): (b: bool)
    ensures b <==> !Free(s, w)
  {
    IndexFrom(s, w, 0).Some?
  }

  /** An occurrence inside a suffix is an occurrence in the whole string. */
  lemma OccursInSuffix(s: string, w: string, j: nat, k: nat)
    requires j <= |s|
    ensures OccursAt(s[j..], w, k) <==> OccursAt(s, w, j + k)
  {
    if j + k + |w| <= |s| {
      assert s[j..][k..k + |w|] == s[j + k..j + k + |w|];
    }
  }

  /**
   * Where the last piece of `s.split(sep)` starts when the scan for `sep`
   * resumes at `j`: Python splits from the left at non-overlapping
   * occurrences, so each occurrence found moves the start past it.
   */
  function LastPieceStart(s: string, sep: string, j: nat): (t: nat)
    requires sep != [] && j <= |s|
    decreases |s| - j
    ensures j <= t <= |s|
    ensures forall k: nat :: t <= k ==> !OccursAt(s, sep, k)
    ensures t == j <==> IndexFrom(s, sep, j).None?
    ensures t != j ==> |sep| <= t && OccursAt(s, sep, t - |sep|)
  {
    match IndexFrom(s, sep, j)
    case None => j
    case Some(i) => LastPieceStart(s, sep, i + |sep|)
  }

  /**
   * `s.split(sep)[-1]`. The contract says the piece follows an occurrence
   * of `sep` and holds none; when `sep` can overlap itself (its first and
   * last characters agree, as in `/channel/`) more than one occurrence
   * fits that, and it is the body, scanning left to right and skipping
   * past each occurrence found as Python's split does, that fixes which.
   */
  function SplitTail(s: string, sep: string): (r: string)
    requires sep != []
    ensures |r| <= |s| && r == s[|s| - |r|..]
    ensures Contains(s, sep) ==> |r| + |sep| <= |s| && OccursAt(s, sep, |s| - |r| - |sep|)
    ensures !Contains(s, sep) ==> r == s
  {
    s[LastPieceStart(s, sep, 0)..]
  }

  /** The last piece of a split holds no occurrence of the separator. */
  lemma SplitTailIsFree(s: string, sep: string)
    requires sep != []
    ensures Free(SplitTail(s, sep), sep)
  {
    var t := LastPieceStart(s, sep, 0);
    forall k: nat ensures !OccursAt(s[t..], sep, k) {
      OccursInSuffix(s, sep, t, k);
    }
  }

  /** No proper prefix of `w` is also a suffix of it, so two occurrences of `w` never overlap. */
  ghost predicate NoBorder(w: string) {
    forall k :: 0 < k < |w| ==> w[..k] != w[|w| - k..]
  }

  /** A word whose first character appears nowhere else in it has no border. */
  lemma HeadOnceNoBorder(w: string)
    requires w != [] && forall i :: 0 < i < |w| ==> w[i] != w[0]
    ensures NoBorder(w)
  {
    forall k | 0 < k < |w| ensures w[..k] != w[|w| - k..] {
      assert w[..k][0] == w[0];
      assert w[|w| - k..][0] == w[|w| - k];
    }
  }

  /**
   * In `pre + u + w + q`, where `u` holds no `w` and `w` has no border, the
   * first occurrence of `w` from `|pre|` on is the one written after `u`.
   */
  lemma FirstOccurrenceAfter(pre: string, u: string, w: string, q: string)
    requires Free(u, w) && NoBorder(w)
    ensures OccursAt(pre + u + w + q, w, |pre| + |u|)
    ensures forall k: nat :: |pre| <= k < |pre| + |u| ==> !OccursAt(pre + u + w + q, w, k)
  {
    var s := pre + u + w + q;
    assert s[|pre| + |u|..|pre| + |u| + |w|] == w;
    forall k: nat | |pre| <= k < |pre| + |u| ensures !OccursAt(s, w, k) {
      var i := k - |pre|;
      if k + |w| <= |pre| + |u| {
        assert s[k..k + |w|] == u[i..i + |w|];
        assert !OccursAt(u, w, i);
      } else if k + |w| <= |s| {
        var m := |u| - i;
        assert s[k..k + |w|][m..] == w[..|w| - m];
        assert w[|w| - (|w| - m)..] == w[m..];
      }
    }
  }

  /**
   * Stripping a string that begins with `p` keeps `p` at its front when `p`
   * neither begins nor ends with whitespace.
   */
  lemma StripKeepsPrefix(p: string, q: string)
    requires p != [] && !IsSpace(p[0]) && !IsSpace(p[|p| - 1])
    ensures StartsWith(Strip(p + q), p)
  {
    var s := p + q;
    assert s[0] == p[0];
    assert StripStart(s) == s;
    StripEndSpec(s);
    var r := StripEnd(s);
    assert s[|p| - 1] == p[|p| - 1];
    assert |p| <= |r|;
    assert r[..|p|] == s[..|p|] == p;
  }
}
