/**
  The string operations the webhook handler relies on, with Python's meaning:
  `str.strip()`, the substring test `pat in s`, `" ".join(parts)` and, as the
  partner of the join, `str.split(" ")`.
 */
module Text {

  /** Python's `str.isspace()` for one character: the ASCII controls tab to
      carriage return, the information separators U+001C to U+001F, the space,
      NEL, NO-BREAK SPACE and the Unicode space separators and line/paragraph
      separators. */
  predicate IsSpace(c: char) {
    || ('\t' <= c <= '\r')
    || ('\U{1C}' <= c <= ' ')
    || c == '\U{85}' || c == '\U{A0}' || c == '\U{1680}'
    || ('\U{2000}' <= c <= '\U{200A}')
    || c == '\U{2028}' || c == '\U{2029}' || c == '\U{202F}' || c == '\U{205F}'
    || c == '\U{3000}'
  }

  /** Every character of `s` at an index in `[lo, hi)` is whitespace. */
  predicate SpaceBetween(s: string, lo: int, hi: int) {
    forall i :: lo <= i < hi && 0 <= i < |s| ==> IsSpace(s[i])
  }

  /** Number of whitespace characters at the start of `s`. */
  function LeadingSpace(s: string): (k: nat)
    ensures k <= |s|
    ensures SpaceBetween(s, 0, k)
    ensures k < |s| ==> !IsSpace(s[k])
  {
    if |s| > 0 && IsSpace(s[0]) then
      var k' := LeadingSpace(s[1..]);
      assert forall i :: 1 <= i < k' + 1 ==> s[i] == s[1..][i - 1];
      k' + 1
    else
      0
  }

  /** Number of whitespace characters at the end of `s`. */
  function TrailingSpace(s: string): (k: nat)
    ensures k <= |s|
    ensures SpaceBetween(s, |s| - k, |s|)
    ensures k < |s| ==> !IsSpace(s[|s| - k - 1])
  {
    if |s| > 0 && IsSpace(s[|s| - 1]) then
      var k' := TrailingSpace(s[..|s| - 1]);
      k' + 1
    else
      0
  }

  /** Cutting `s` to `s[a..b]` removes whitespace only, and leaves no
      whitespace at either end of what remains. */
  predicate StripsTo(s: string, a: int, b: int) {
    && 0 <= a <= b <= |s|
    && SpaceBetween(s, 0, a) && SpaceBetween(s, b, |s|)
    && (a < b ==> !IsSpace(s[a]) && !IsSpace(s[b - 1]))
  }

  /** `r` is what `str.strip()` may return for `s`. */
  ghost predicate IsStripOf(s: string, r: string) {
    exists a, b :: StripsTo(s, a, b) && r == s[a..b]
  }

  /** Where `s.strip()` cuts `s`: after the leading and before the trailing whitespace. */
  function StripBounds(s: string): (bounds: (nat, nat))
    ensures StripsTo(s, bounds.0, bounds.1)
  {
    var a := LeadingSpace(s);
    var rest := s[a..];
    var k := TrailingSpace(rest);
    SpaceBetweenSuffix(s, a, |rest| - k, |rest|);
    assert k < |rest| ==> rest[|rest| - k - 1] == s[|s| - k - 1];
    (a, |s| - k)
  }

  /** Whitespace in a range of `s[a..]` is whitespace in the shifted range of `s`. */
  lemma SpaceBetweenSuffix(s: string, a: nat, lo: nat, hi: int)
    requires a <= |s|
    ensures SpaceBetween(s[a..], lo, hi) <==> SpaceBetween(s, lo + a, hi + a)
  {
  }

  /** Python's `s.strip()`. */
  function Strip(s: string): (r: string)
    ensures IsStripOf(s, r)
  {
    var (a, b) := StripBounds(s);
    s[a..b]
  }

  /** The leading whitespace run is the only whitespace prefix followed by a
      non-space (or by the end). */
  lemma LeadingSpaceUnique(s: string, a: nat)
    requires a <= |s| && SpaceBetween(s, 0, a)
    requires a < |s| ==> !IsSpace(s[a])
    ensures a == LeadingSpace(s)
  {
  }

  /** The trailing whitespace run is the only whitespace suffix preceded by a
      non-space (or by the start). */
  lemma TrailingSpaceUnique(s: string, k: nat)
    requires k <= |s| && SpaceBetween(s, |s| - k, |s|)
    requires k < |s| ==> !IsSpace(s[|s| - k - 1])
    ensures k == TrailingSpace(s)
  {
  }

  /** Every cut that strips `s` leaves the same string: the one `Strip` returns. */
  lemma StripBetween(s: string, a: nat, b: nat)
    requires StripsTo(s, a, b)
    ensures s[a..b] == Strip(s)
  {
    if a == b {
      LeadingSpaceUnique(s, |s|);
    } else {
      LeadingSpaceUnique(s, a);
      var rest := s[a..];
      SpaceBetweenSuffix(s, a, b - a, |rest|);
      assert rest[b - a - 1] == s[b - 1];
      TrailingSpaceUnique(rest, |s| - b);
    }
  }

  /** The strip is determined by its characterisation: any `r` that `IsStripOf(s, r)`
      is `Strip(s)`. */
  lemma StripUnique(s: string, r: string)
    requires IsStripOf(s, r)
    ensures r == Strip(s)
  {
    var a, b :| StripsTo(s, a, b) && r == s[a..b];
    StripBetween(s, a, b);
  }

  /** Stripping twice strips nothing more. */
  lemma StripIdempotent(s: string)
    ensures Strip(Strip(s)) == Strip(s)
  {
    var r := Strip(s);
    var (a, b) := StripBounds(s);
    assert StripsTo(r, 0, |r|) by {
      if a < b { assert r[0] == s[a] && r[|r| - 1] == s[b - 1]; }
    }
    StripBetween(r, 0, |r|);
    assert r[0..|r|] == r;
  }

  /** Python's `pat in s` for strings. */
  predicate Contains(s: string, pat: string) {
    exists i | 0 <= i <= |s| :: pat <= s[i..]
  }

  /** Python's `" ".join(parts)`. */
  function JoinWithSpace(parts: seq<string>): (r: string)
    ensures |r| == TotalLength(parts) + (if |parts| == 0 then 0 else |parts| - 1)
  {
    if |parts| == 0 then ""
    else if |parts| == 1 then parts[0]
    else parts[0] + " " + JoinWithSpace(parts[1..])
  }

  /** Sum of the lengths of `parts`. */
  function TotalLength(parts: seq<string>): nat {
    if |parts| == 0 then 0 else |parts[0]| + TotalLength(parts[1..])
  }

  /** Index of the first space in `s`, or `|s|` when there is none. */
  function IndexOfSpace(s: string): (k: nat)
    ensures k <= |s|
    ensures forall i :: 0 <= i < k ==> s[i] != ' '
    ensures k < |s| ==> s[k] == ' '
  {
    if |s| == 0 || s[0] == ' ' then 0 else IndexOfSpace(s[1..]) + 1
  }

  /** Python's `s.split(" ")`: the pieces between single spaces, always at least one. */
  function SplitOnSpace(s: string): (parts: seq<string>)
    ensures |parts| >= 1
    decreases |s|
  {
    var k := IndexOfSpace(s);
    if k == |s| then
      assert s[..k] == s;
      [s]
    else
      [s[..k]] + SplitOnSpace(s[k + 1..])
  }

  /** No piece of a split holds a space. */
  lemma {:induction false} SplitPiecesHaveNoSpace(s: string)
    ensures forall i :: 0 <= i < |SplitOnSpace(s)| ==> ' ' !in SplitOnSpace(s)[i]
    decreases |s|
  {
    var k := IndexOfSpace(s);
    if k < |s| {
      SplitAtSpace(s);
      SplitPiecesHaveNoSpace(s[k + 1..]);
    } else {
      assert s[..k] == s;
    }
  }

  /** Joining with single spaces and splitting on single spaces give back the
      pieces, provided no piece holds a space itself. */
  lemma {:induction false} SplitJoin(parts: seq<string>)
    requires |parts| >= 1
    requires forall i :: 0 <= i < |parts| ==> ' ' !in parts[i]
    ensures SplitOnSpace(JoinWithSpace(parts)) == parts
  {
    var head := parts[0];
    assert ' ' !in head;
    if |parts| == 1 {
      NoSpaceNoSplit(head);
    } else {
      var rest := parts[1..];
      var tail := JoinWithSpace(rest);
      var s := head + " " + tail;
      assert JoinWithSpace(parts) == s;
      FirstSpaceAfter(head, tail);
      SplitAtSpace(s);
      forall i | 0 <= i < |rest| ensures ' ' !in rest[i] {
        assert rest[i] == parts[i + 1];
      }
      SplitJoin(rest);
      assert parts == [head] + rest;
    }
  }

  /** A string without a space splits into itself alone. */
  lemma NoSpaceNoSplit(s: string)
    requires ' ' !in s
    ensures SplitOnSpace(s) == [s]
  {
    forall i | 0 <= i < |s| ensures s[i] != ' ' {
      assert s[i] in s;
    }
    IndexOfSpaceUnique(s, |s|);
    assert s[..|s|] == s;
  }

  /** In `head + " " + tail` with no space in `head`, the first space is the one in between. */
  lemma FirstSpaceAfter(head: string, tail: string)
    requires ' ' !in head
    ensures var s := head + " " + tail;
      && IndexOfSpace(s) == |head|
      && s[..|head|] == head
      && s[|head| + 1..] == tail
  {
    var s := head + " " + tail;
    forall i | 0 <= i < |head| ensures s[i] != ' ' {
      assert s[i] == head[i];
    }
    IndexOfSpaceUnique(s, |head|);
    assert s[..|head|] == head;
    assert s[|head| + 1..] == tail;
  }

  /** The first space is the only position with a space there and none before it. */
  lemma IndexOfSpaceUnique(s: string, k: nat)
    requires k <= |s|
    requires forall i :: 0 <= i < k ==> s[i] != ' '
    requires k < |s| ==> s[k] == ' '
    ensures IndexOfSpace(s) == k
  {
  }

  /** Splitting on single spaces and joining with single spaces is the identity. */
  lemma {:induction false} JoinSplit(s: string)
    ensures JoinWithSpace(SplitOnSpace(s)) == s
    decreases |s|
  {
    var k := IndexOfSpace(s);
    if k < |s| {
      var head, rest := s[..k], s[k + 1..];
      SplitAtSpace(s);
      JoinSplit(rest);
      JoinCons(head, SplitOnSpace(rest));
    } else {
      assert s[..k] == s;
    }
  }

  /** At the first space, `s` falls apart into the piece before it and the rest after it. */
  lemma SplitAtSpace(s: string)
    requires IndexOfSpace(s) < |s|
    ensures var k := IndexOfSpace(s);
      && SplitOnSpace(s) == [s[..k]] + SplitOnSpace(s[k + 1..])
      && s == s[..k] + " " + s[k + 1..]
  {
    var k := IndexOfSpace(s);
    AroundIndex(s, k);
  }

  /** A sequence is the part before index `k`, the element at `k` and the part after it. */
  lemma AroundIndex(s: string, k: nat)
    requires k < |s|
    ensures s == s[..k] + [s[k]] + s[k + 1..]
  {
  }

  /** Joining a head in front of a non-empty tail puts one space between them. */
  lemma JoinCons(head: string, tail: seq<string>)
    requires |tail| >= 1
    ensures JoinWithSpace([head] + tail) == head + " " + JoinWithSpace(tail)
  {
    assert ([head] + tail)[1..] == tail;
  }

  /** Joining two non-empty lists is joining their joins with one more space. */
  lemma {:induction false} JoinAppend(xs: seq<string>, ys: seq<string>)
    requires |xs| >= 1 && |ys| >= 1
    ensures JoinWithSpace(xs + ys) == JoinWithSpace(xs) + " " + JoinWithSpace(ys)
  {
    if |xs| == 1 {
      assert (xs + ys)[1..] == ys;
    } else {
      assert (xs + ys)[1..] == xs[1..] + ys;
      JoinAppend(xs[1..], ys);
    }
  }
}
