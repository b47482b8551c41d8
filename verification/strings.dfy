/**
 * The handful of Python `str` operations the bot relies on:
 * `str.isspace` / `str.strip`, `str.rstrip(c)`, `sep.join(parts)`,
 * `str.rfind(c)` and the `a or b` fallback on optional strings.
 */
module Strings {
  import opened Wrappers

  /** The characters CPython treats as whitespace (`str.isspace`), i.e. what
      `str.strip()` without arguments removes. */
  predicate IsSpace(c: char) {
    || ('\t' <= c <= '\r')
    || ('\U{1C}' <= c <= '\U{1F}')
    || c == ' '
    || c == '\U{85}'
    || c == '\U{A0}'
    || c == '\U{1680}'
    || ('\U{2000}' <= c <= '\U{200A}')
    || c == '\U{2028}'
    || c == '\U{2029}'
    || c == '\U{202F}'
    || c == '\U{205F}'
    || c == '\U{3000}'
  }

  /** `not s.strip()`: the string is empty or whitespace only. */
  predicate IsBlank(s: string) {
    forall i :: 0 <= i < |s| ==> IsSpace(s[i])
  }

  /** The string neither starts nor ends with whitespace. */
  predicate Trimmed(s: string) {
    s == [] || (!IsSpace(s[0]) && !IsSpace(s[|s| - 1]))
  }

  /** Python's `a or b` where `a` is an optional string: `None` and `""` are
      both falsy and fall through to `b`. */
  function Or(a: Option<string>, b: string): (r: string)
    ensures a.Some? && a.value != "" ==> r == a.value
    ensures a.None? || a.value == "" ==> r == b
  {
    if a.Some? && a.value != "" then a.value else b
  }

  /** The end of the run of whitespace that starts at `i`: the index where
      `s.lstrip()` would begin when `i` is 0. */
  function SpaceRunFrom(s: string, i: nat): (r: nat)
    requires i <= |s|
    ensures i <= r <= |s|
    ensures forall k :: i <= k < r ==> IsSpace(s[k])
    ensures r == |s| || !IsSpace(s[r])
    decreases |s| - i
  {
    if i < |s| && IsSpace(s[i]) then SpaceRunFrom(s, i + 1) else i
  }

  /** The start of the run of whitespace that ends at `j`, not going below
      `lo`: the index where `s.rstrip()` would end when `j` is `|s|`. */
  function SpaceRunBefore(s: string, lo: nat, j: nat): (r: nat)
    requires lo <= j <= |s|
    ensures lo <= r <= j
    ensures forall k :: r <= k < j ==> IsSpace(s[k])
    ensures r == lo || !IsSpace(s[r - 1])
  {
    if j > lo && IsSpace(s[j - 1]) then SpaceRunBefore(s, lo, j - 1) else j
  }

  /** `s.strip()`: the infix of `s` left after removing whitespace on both
      ends; it is empty exactly when `s` is blank. */
  function Strip(s: string): (r: string)
    ensures Trimmed(r)
    ensures r == [] <==> IsBlank(s)
    ensures |r| <= |s|
  {
    var a := SpaceRunFrom(s, 0);
    var b := SpaceRunBefore(s, a, |s|);
    s[a..b]
  }

  /** Stripping removes exactly the whitespace margins: whatever trimmed
      text is wrapped in blank padding, `strip` gives it back unchanged. */
  lemma StripMargins(a: string, s: string, b: string)
    requires IsBlank(a) && IsBlank(b) && Trimmed(s)
    ensures Strip(a + s + b) == s
  {
    var x := a + s + b;
    assert forall k :: 0 <= k < |a| ==> x[k] == a[k];
    assert forall k :: |a| + |s| <= k < |x| ==> x[k] == b[k - |a| - |s|];
    if s == [] {
      SpaceRunFromEnds(x, 0, |x|);
      SpaceRunBeforeEnds(x, |x|, |x|, |x|);
    } else {
      assert x[|a|] == s[0] && x[|a| + |s| - 1] == s[|s| - 1];
      SpaceRunFromEnds(x, 0, |a|);
      SpaceRunBeforeEnds(x, |a|, |x|, |a| + |s|);
      assert x[|a|..|a| + |s|] == s;
    }
  }

  /** A run of whitespace followed by a non-space (or the end) is where the
      forward scan stops. */
  lemma {:induction false} SpaceRunFromEnds(s: string, i: nat, k: nat)
    requires i <= k <= |s|
    requires forall j :: i <= j < k ==> IsSpace(s[j])
    requires k == |s| || !IsSpace(s[k])
    ensures SpaceRunFrom(s, i) == k
    decreases k - i
  {
    if i < k {
      SpaceRunFromEnds(s, i + 1, k);
    }
  }

  /** A run of whitespace preceded by a non-space (or `lo`) is where the
      backward scan stops. */
  lemma {:induction false} SpaceRunBeforeEnds(s: string, lo: nat, j: nat, k: nat)
    requires lo <= k <= j <= |s|
    requires forall i :: k <= i < j ==> IsSpace(s[i])
    requires k == lo || !IsSpace(s[k - 1])
    ensures SpaceRunBefore(s, lo, j) == k
    decreases j - k
  {
    if k < j {
      SpaceRunBeforeEnds(s, lo, j - 1, k);
    }
  }

  /** `s.rstrip(c)`: drops every trailing occurrence of `c`. */
  function RStrip(s: string, c: char): (r: string)
    ensures |r| <= |s| && r == s[..|r|]
    ensures forall i :: |r| <= i < |s| ==> s[i] == c
    ensures r == [] || r[|r| - 1] != c
  {
    if |s| > 0 && s[|s| - 1] == c then RStrip(s[..|s| - 1], c) else s
  }

  /** Appending more copies of `c` does not change what `rstrip(c)` leaves. */
  lemma {:induction false} RStripPadding(s: string, t: string, c: char)
    requires forall i :: 0 <= i < |t| ==> t[i] == c
    ensures RStrip(s + t, c) == RStrip(s, c)
    decreases |t|
  {
    if t == [] {
      assert s + t == s;
    } else {
      var u := t[..|t| - 1];
      assert (s + t)[..|s + t| - 1] == s + u;
      RStripPadding(s, u, c);
    }
  }

  /** `s.rfind(c)`: the index of the last `c` in `s`, or -1. */
  function LastIndexOf(s: string, c: char): (r: int)
    ensures -1 <= r < |s|
    ensures r >= 0 ==> s[r] == c
    ensures forall j :: r < j < |s| ==> s[j] != c
  {
    if |s| == 0 then -1
    else if s[|s| - 1] == c then |s| - 1
    else LastIndexOf(s[..|s| - 1], c)
  }

  /** An occurrence of `c` with none after it is the one `rfind` reports. */
  lemma LastIndexOfAt(s: string, c: char, k: nat)
    requires k < |s| && s[k] == c
    requires forall j :: k < j < |s| ==> s[j] != c
    ensures LastIndexOf(s, c) == k
  {
  }

  /** `sep.join(parts)`. */
  function Join(parts: seq<string>, sep: string): string
  {
    if |parts| == 0 then ""
    else if |parts| == 1 then parts[0]
    else parts[0] + sep + Join(parts[1..], sep)
  }

  /** Joining two non-empty lists puts exactly one separator between them. */
  lemma {:induction false} JoinAppend(xs: seq<string>, ys: seq<string>, sep: string)
    requires |xs| > 0 && |ys| > 0
    ensures Join(xs + ys, sep) == Join(xs, sep) + sep + Join(ys, sep)
  {
    if |xs| == 1 {
      assert (xs + ys)[1..] == ys;
    } else {
      assert (xs + ys)[1..] == xs[1..] + ys;
      JoinAppend(xs[1..], ys, sep);
    }
  }
}
