/** String and sequence helpers that the app takes from Foundation:
    `compactMap`, `joined(separator:)` and `trimmingCharacters(in: .whitespacesAndNewlines)`. */
module Text {
  import opened Wrappers

  // ---------------------------------------------------------------------------
  // compactMap(\.self)
  // ---------------------------------------------------------------------------

  /** The present values of `xs`, in their original order. */
  function CompactMap<T>(xs: seq<Option<T>>): (r: seq<T>)
    ensures |r| <= |xs|
  {
    if |xs| == 0 then []
    else if xs[0].Some? then [xs[0].value] + CompactMap(xs[1..])
    else CompactMap(xs[1..])
  }

  /** compactMap distributes over concatenation: it keeps the relative order of
      the present values. */
  lemma {:induction false} CompactMapAppend<T>(xs: seq<Option<T>>, ys: seq<Option<T>>)
    ensures CompactMap(xs + ys) == CompactMap(xs) + CompactMap(ys)
  {
    if |xs| == 0 {
      assert xs + ys == ys;
    } else {
      assert (xs + ys)[1..] == xs[1..] + ys;
      CompactMapAppend(xs[1..], ys);
    }
  }

  /** A value is kept exactly when it is present somewhere in the input. */
  lemma {:induction false} CompactMapMembership<T>(xs: seq<Option<T>>, v: T)
    ensures v in CompactMap(xs) <==> Some(v) in xs
  {
    if |xs| > 0 {
      CompactMapMembership(xs[1..], v);
      assert xs == [xs[0]] + xs[1..];
    }
  }

  /** Nothing is kept from an all-absent input, and everything from an all-present one. */
  lemma {:induction false} CompactMapAllNone<T>(xs: seq<Option<T>>)
    requires forall i :: 0 <= i < |xs| ==> xs[i].None?
    ensures CompactMap(xs) == []
  {
    if |xs| > 0 {
      CompactMapAllNone(xs[1..]);
    }
  }

  /** With every value present, compactMap unwraps them all, in place. */
  lemma {:induction false} CompactMapAllSome<T>(xs: seq<Option<T>>)
    requires forall i :: 0 <= i < |xs| ==> xs[i].Some?
    ensures |CompactMap(xs)| == |xs|
    ensures forall i :: 0 <= i < |xs| ==> CompactMap(xs)[i] == xs[i].value
  {
    if |xs| > 0 {
      CompactMapAllSome(xs[1..]);
    }
  }

  // ---------------------------------------------------------------------------
  // joined(separator:)
  // ---------------------------------------------------------------------------

  /** The parts concatenated with `sep` between adjacent ones. */
  function Join(parts: seq<string>, sep: string): string
  {
    if |parts| == 0 then ""
    else if |parts| == 1 then parts[0]
    else parts[0] + sep + Join(parts[1..], sep)
  }

  /** Where part `i` starts inside `Join(parts, sep)`. */
  function PartOffset(parts: seq<string>, sep: string, i: nat): nat
    requires i <= |parts|
  {
    if i == 0 then 0 else |parts[0]| + |sep| + PartOffset(parts[1..], sep, i - 1)
  }

  /** The layout of a joined string: part `i` sits at its offset, followed by
      exactly one separator unless it is the last part, and the string ends right
      after the last part (so there is no leading or trailing separator). */
  lemma {:induction false} JoinLayout(parts: seq<string>, sep: string, i: nat)
    requires i < |parts|
    ensures var s, o := Join(parts, sep), PartOffset(parts, sep, i);
            && o + |parts[i]| <= |s|
            && s[o .. o + |parts[i]|] == parts[i]
            && (i + 1 < |parts| ==> o + |parts[i]| + |sep| <= |s| && s[o + |parts[i]| .. o + |parts[i]| + |sep|] == sep)
            && (i + 1 == |parts| ==> o + |parts[i]| == |s|)
    decreases i
  {
    JoinPlacement(parts, sep, i);
  }

  /** `JoinLayout`, stated with `PlacedAt`. */
  lemma {:induction false} JoinPlacement(parts: seq<string>, sep: string, i: nat)
    requires i < |parts|
    ensures PlacedAt(Join(parts, sep), PartOffset(parts, sep, i), parts[i], sep, i + 1 == |parts|)
    decreases i
  {
    if |parts| == 1 {
    } else if i == 0 {
      JoinLayoutHead(parts, sep);
    } else {
      JoinPlacement(parts[1..], sep, i - 1);
      assert parts[1..][i - 1] == parts[i];
      JoinLayoutStep(parts, sep, i);
    }
  }

  /** The first of several parts is followed by the separator. */
  lemma JoinLayoutHead(parts: seq<string>, sep: string)
    requires |parts| > 1
    ensures |parts[0]| + |sep| <= |Join(parts, sep)|
    ensures Join(parts, sep)[..|parts[0]|] == parts[0]
    ensures Join(parts, sep)[|parts[0]| .. |parts[0]| + |sep|] == sep
  {
    var tail := sep + Join(parts[1..], sep);
    assert Join(parts, sep) == parts[0] + tail;
    SliceOfConcat(parts[0], tail, 0, |sep|);
  }

  /** Part `i > 0` sits in the join of the later parts, shifted by the first
      part and one separator. */
  lemma JoinLayoutStep(parts: seq<string>, sep: string, i: nat)
    requires 0 < i < |parts| && |parts| > 1
    requires PlacedAt(Join(parts[1..], sep), PartOffset(parts[1..], sep, i - 1), parts[i], sep, i + 1 == |parts|)
    ensures PlacedAt(Join(parts, sep), PartOffset(parts, sep, i), parts[i], sep, i + 1 == |parts|)
  {
    var head := parts[0] + sep;
    assert Join(parts, sep) == head + Join(parts[1..], sep);
    ShiftedPlacement(head, Join(parts[1..], sep), PartOffset(parts[1..], sep, i - 1), parts[i], sep, i + 1 == |parts|);
  }

  /** `part` sits at offset `o` of `s`, followed by `sep` unless it is the last
      part, in which case `s` ends right after it. */
  predicate PlacedAt(s: string, o: nat, part: string, sep: string, last: bool)
  {
    && o + |part| <= |s|
    && s[o .. o + |part|] == part
    && (!last ==> o + |part| + |sep| <= |s| && s[o + |part| .. o + |part| + |sep|] == sep)
    && (last ==> o + |part| == |s|)
  }

  /** Prefixing a string shifts every placement in it by the prefix length. */
  lemma ShiftedPlacement(head: string, rest: string, o: nat, part: string, sep: string, last: bool)
    requires PlacedAt(rest, o, part, sep, last)
    ensures PlacedAt(head + rest, |head| + o, part, sep, last)
  {
    SliceOfConcat(head, rest, o, o + |part|);
    if !last {
      SliceOfConcat(head, rest, o + |part|, o + |part| + |sep|);
    }
  }

  /** A slice of `a + b` past the end of `a` is a slice of `b`. */
  lemma SliceOfConcat(a: string, b: string, lo: nat, hi: nat)
    requires lo <= hi <= |b|
    ensures (a + b)[|a| + lo .. |a| + hi] == b[lo..hi]
    ensures (a + b)[..|a|] == a
  {
  }

  /** Joining nothing gives the empty string; joining one part gives that part. */
  lemma JoinSmall(sep: string, x: string)
    ensures Join([], sep) == ""
    ensures Join([x], sep) == x
  {
  }

  // ---------------------------------------------------------------------------
  // trimmingCharacters(in: .whitespacesAndNewlines)
  // ---------------------------------------------------------------------------

  /** Membership in Foundation's `CharacterSet.whitespacesAndNewlines`: the
      Unicode general categories Zs, Zl and Zp, U+0009 to U+000D, and U+0085. */
  predicate IsWhitespaceOrNewline(c: char)
  {
    || ('\U{0009}' <= c <= '\U{000D}')
    || c == '\U{0020}' || c == '\U{0085}' || c == '\U{00A0}' || c == '\U{1680}'
    || ('\U{2000}' <= c <= '\U{200A}')
    || c == '\U{2028}' || c == '\U{2029}' || c == '\U{202F}' || c == '\U{205F}' || c == '\U{3000}'
  }

  predicate AllWhitespace(s: string)
  {
    forall i :: 0 <= i < |s| ==> IsWhitespaceOrNewline(s[i])
  }

  /** The index of the first character at or after `i` that is not whitespace
      (`|s|` when there is none). */
  function LeadingEnd(s: string, i: nat): (n: nat)
    requires i <= |s|
    ensures i <= n <= |s|
    ensures forall k :: i <= k < n ==> IsWhitespaceOrNewline(s[k])
    ensures n < |s| ==> !IsWhitespaceOrNewline(s[n])
    decreases |s| - i
  {
    if i < |s| && IsWhitespaceOrNewline(s[i]) then LeadingEnd(s, i + 1) else i
  }

  /** The index just after the last character before `j`, and not before `lo`,
      that is not whitespace (`lo` when there is none). */
  function TrailingStart(s: string, lo: nat, j: nat): (n: nat)
    requires lo <= j <= |s|
    ensures lo <= n <= j
    ensures forall k :: n <= k < j ==> IsWhitespaceOrNewline(s[k])
    ensures n > lo ==> !IsWhitespaceOrNewline(s[n - 1])
  {
    if j > lo && IsWhitespaceOrNewline(s[j - 1]) then TrailingStart(s, lo, j - 1) else j
  }

  /** Whitespace and newlines removed from both ends. */
  function Trim(s: string): (t: string)
    ensures exists a, b :: 0 <= a <= b <= |s| && t == s[a..b]
              && (forall k :: 0 <= k < a ==> IsWhitespaceOrNewline(s[k]))
              && (forall k :: b <= k < |s| ==> IsWhitespaceOrNewline(s[k]))
    ensures |t| > 0 ==> !IsWhitespaceOrNewline(t[0]) && !IsWhitespaceOrNewline(t[|t| - 1])
  {
    var a := LeadingEnd(s, 0);
    var b := TrailingStart(s, a, |s|);
    assert b > a ==> s[a..b][0] == s[a] && s[a..b][b - a - 1] == s[b - 1];
    s[a..b]
  }

  /** A title trims to the empty string exactly when it consists only of
      whitespace and newlines (in particular, when it is empty). */
  lemma TrimEmptyIff(s: string)
    ensures Trim(s) == "" <==> AllWhitespace(s)
  {
    var a := LeadingEnd(s, 0);
    var b := TrailingStart(s, a, |s|);
    assert Trim(s) == s[a..b];
    if !AllWhitespace(s) {
      var i :| 0 <= i < |s| && !IsWhitespaceOrNewline(s[i]);
      assert a <= i;
      assert b > a;
    }
  }
}
