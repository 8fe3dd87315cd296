/**
 * Python's `str.strip()` with no argument: removes leading and trailing
 * characters for which `str.isspace()` holds.
 */
module Text {

  /** The characters Python treats as whitespace in `str.strip()` and `str.split()`. */
  predicate IsSpace(c: char) {
    || ('\U{09}' <= c <= '\U{0D}')
    || ('\U{1C}' <= c <= '\U{20}')
    || c == '\U{85}' || c == '\U{A0}' || c == '\U{1680}'
    || ('\U{2000}' <= c <= '\U{200A}')
    || c == '\U{2028}' || c == '\U{2029}' || c == '\U{202F}' || c == '\U{205F}' || c == '\U{3000}'
  }

  predicate AllSpace(s: string) {
    forall k :: 0 <= k < |s| ==> IsSpace(s[k])
  }

  /** A string that `strip` leaves alone: empty, or starting and ending with a non-space. */
  predicate Trimmed(s: string) {
    s == [] || (!IsSpace(s[0]) && !IsSpace(s[|s| - 1]))
  }

  /** Every character of `s` from index `lo` up to `hi` is whitespace. */
  predicate SpaceBetween(s: string, lo: int, hi: int) {
    forall k :: lo <= k < hi && 0 <= k < |s| ==> IsSpace(s[k])
  }

  /** The forward scan of `strip`: from `i`, the index of the first non-space, or `|s|`. */
  function ScanLeft(s: string, i: nat): (n: nat)
    requires i <= |s|
    ensures i <= n <= |s| && SpaceBetween(s, i, n)
    ensures n < |s| ==> !IsSpace(s[n])
    decreases |s| - i
  {
    if i < |s| && IsSpace(s[i]) then ScanLeft(s, i + 1) else i
  }

  /** The backward scan of `strip`: from `j` down to `lo`, the end of the last non-space. */
  function ScanRight(s: string, lo: nat, j: nat): (n: nat)
    requires lo <= j <= |s|
    ensures lo <= n <= j && SpaceBetween(s, n, j)
    ensures n > lo ==> !IsSpace(s[n - 1])
    decreases j
  {
    if j > lo && IsSpace(s[j - 1]) then ScanRight(s, lo, j - 1) else j
  }

  /**
   * `s.strip()`: scan forward past leading whitespace, then backward from the
   * end, no further than where the forward scan stopped, and keep what is
   * between. What is kept is trimmed.
   */
  function Strip(s: string): (r: string)
    ensures Trimmed(r) && |r| <= |s|
  {
    var i := ScanLeft(s, 0);
    var j := ScanRight(s, i, |s|);
    s[i..j]
  }

  /** What `strip` keeps is a slice of its input with only whitespace on either side of it. */
  lemma StripSlice(s: string)
    ensures exists i, j :: 0 <= i <= j <= |s| && Strip(s) == s[i..j] && SpaceBetween(s, 0, i) && SpaceBetween(s, j, |s|)
  {
    var i := ScanLeft(s, 0);
    var j := ScanRight(s, i, |s|);
    assert Strip(s) == s[i..j];
  }

  /** The forward scan passes over whitespace: starting earlier in a run of spaces ends in the same place. */
  lemma {:induction false} ScanLeftSkips(s: string, i: nat, m: nat)
    requires i <= m <= |s| && SpaceBetween(s, i, m)
    ensures ScanLeft(s, i) == ScanLeft(s, m)
    decreases m - i
  {
    if i < m {
      ScanLeftSkips(s, i + 1, m);
    }
  }

  /** The backward scan passes over whitespace in the same way. */
  lemma {:induction false} ScanRightSkips(s: string, lo: nat, m: nat, j: nat)
    requires lo <= m <= j <= |s| && SpaceBetween(s, m, j)
    ensures ScanRight(s, lo, j) == ScanRight(s, lo, m)
    decreases j - m
  {
    if m < j {
      ScanRightSkips(s, lo, m, j - 1);
    }
  }

  /**
   * Stripping a trimmed string padded with whitespace on both sides gives
   * it back: together with `StripSlice`, this pins down what `strip` keeps.
   */
  lemma StripPadded(pre: string, t: string, post: string)
    requires AllSpace(pre) && AllSpace(post) && Trimmed(t)
    ensures Strip(pre + t + post) == t
  {
    var s := pre + t + post;
    var m := |pre| + |t|;
    assert forall k :: 0 <= k < |pre| ==> s[k] == pre[k];
    assert forall k :: m <= k < |s| ==> s[k] == post[k - m];
    ScanLeftSkips(s, 0, |pre|);
    if t == [] {
      ScanLeftSkips(s, |pre|, |s|);
      assert ScanLeft(s, 0) == |s|;
    } else {
      assert s[|pre|] == t[0] && s[m - 1] == t[|t| - 1];
      assert ScanLeft(s, 0) == |pre|;
      ScanRightSkips(s, |pre|, m, |s|);
      assert ScanRight(s, |pre|, m) == m;
      assert s[|pre|..m] == t;
    }
  }

  /** Stripping twice is the same as stripping once. */
  lemma StripIdempotent(s: string)
    ensures Strip(Strip(s)) == Strip(s)
  {
    StripPadded([], Strip(s), []);
    assert [] + Strip(s) + [] == Strip(s);
  }

  /** `sep.join(parts)`: no parts give the empty string and one part itself. */
  function Join(sep: string, parts: seq<string>): (r: string)
    ensures parts == [] ==> r == []
    ensures |parts| == 1 ==> r == parts[0]
    ensures |parts| >= 2 ==> |r| >= |parts[0]| + |sep|
    decreases |parts|
  {
    if parts == [] then ""
    else if |parts| == 1 then parts[0]
    else parts[0] + sep + Join(sep, parts[1..])
  }

  /** Joining with a non-empty separator is empty only for no parts or a single empty part. */
  lemma JoinEmpty(sep: string, parts: seq<string>)
    requires sep != []
    ensures Join(sep, parts) == [] <==> parts == [] || (|parts| == 1 && parts[0] == [])
  {
  }

  /** Joining keeps the order of the parts: two or more begin with the first part, then the separator. */
  lemma JoinFirst(sep: string, parts: seq<string>)
    requires |parts| >= 2
    ensures parts[0] + sep <= Join(sep, parts)
  {
    assert Join(sep, parts) == (parts[0] + sep) + Join(sep, parts[1..]);
  }

  /** Joining keeps the order of the parts: a part added at the end comes last, after one separator. */
  lemma {:induction false} JoinSnoc(sep: string, parts: seq<string>, p: string)
    requires parts != []
    ensures Join(sep, parts + [p]) == Join(sep, parts) + sep + p
    decreases |parts|
  {
    if |parts| == 1 {
      assert parts + [p] == [parts[0], p];
    } else {
      assert (parts + [p])[1..] == parts[1..] + [p];
      JoinSnoc(sep, parts[1..], p);
    }
  }
}
