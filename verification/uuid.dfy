/** Foundation's `UUID`: sixteen bytes, written by `uuidString` in the textual
    form of RFC 4122 (upper-case hexadecimal, groups of 8-4-4-4-12 digits). */
module Uuids {
  import opened Wrappers

  datatype Uuid = Uuid(bytes: seq<byte>)

  predicate Valid(u: Uuid)
  {
    |u.bytes| == 16
  }

  const HexDigits: string := "0123456789ABCDEF"

  /** The upper-case hexadecimal digit for `d`. */
  function HexDigit(d: int): char
    requires 0 <= d < 16
  {
    HexDigits[d]
  }

  /** The value of an upper-case hexadecimal digit, if `c` is one. */
  function HexValue(c: char): (r: Option<int>)
    ensures r.Some? ==> 0 <= r.value < 16 && HexDigit(r.value) == c
  {
    if '0' <= c <= '9' then Some(c as int - '0' as int)
    else if 'A' <= c <= 'F' then Some(c as int - 'A' as int + 10)
    else None
  }

  lemma HexValueOfDigit(d: int)
    requires 0 <= d < 16
    ensures HexValue(HexDigit(d)) == Some(d)
  {
  }

  /** Two hexadecimal digits per byte, most significant nibble first. */
  function HexBytes(bs: seq<byte>): (s: string)
    ensures |s| == 2 * |bs|
    ensures AllHexDigits(s)
  {
    if |bs| == 0 then ""
    else
      HexValueOfDigit(bs[0] / 16);
      HexValueOfDigit(bs[0] % 16);
      [HexDigit(bs[0] / 16), HexDigit(bs[0] % 16)] + HexBytes(bs[1..])
  }

  /** Every character of `s` is an upper-case hexadecimal digit. */
  predicate AllHexDigits(s: string)
  {
    forall i :: 0 <= i < |s| ==> HexValue(s[i]).Some?
  }

  function ParseHexBytes(s: string): Option<seq<byte>>
    decreases |s|
  {
    if |s| == 0 then Some([])
    else if |s| == 1 then None
    else match (HexValue(s[0]), HexValue(s[1]), ParseHexBytes(s[2..]))
      case (Some(hi), Some(lo), Some(rest)) => Some([hi * 16 + lo] + rest)
      case _ => None
  }

  lemma {:induction false} ParseHexBytesRoundTrip(bs: seq<byte>)
    ensures ParseHexBytes(HexBytes(bs)) == Some(bs)
  {
    if |bs| > 0 {
      var x, tail := bs[0], bs[1..];
      var c0, c1 := HexDigit(x / 16), HexDigit(x % 16);
      HexValueOfDigit(x / 16);
      HexValueOfDigit(x % 16);
      assert HexBytes(bs) == [c0, c1] + HexBytes(tail);
      ParseHexBytesRoundTrip(tail);
      ParseHexCons(c0, c1, HexBytes(tail), x, tail);
      assert [x] + tail == bs;
    }
  }

  /** Two digits spelling byte `x` in front of a parsable string parse to `x`
      in front of what the string parses to. */
  lemma ParseHexCons(c0: char, c1: char, rest: string, x: byte, xs: seq<byte>)
    requires HexValue(c0) == Some(x / 16) && HexValue(c1) == Some(x % 16)
    requires ParseHexBytes(rest) == Some(xs)
    ensures ParseHexBytes([c0, c1] + rest) == Some([x] + xs)
  {
    var s := [c0, c1] + rest;
    assert s[0] == c0 && s[1] == c1 && s[2..] == rest;
    NibblesRecombine(x);
  }

  /** A byte is its high nibble times sixteen plus its low nibble. */
  lemma NibblesRecombine(x: byte)
    ensures (x / 16) * 16 + x % 16 == x
  {
  }

  /** `uuidString`. */
  function Text(u: Uuid): (s: string)
    requires Valid(u)
    ensures |s| == 36
    ensures s[8] == '-' && s[13] == '-' && s[18] == '-' && s[23] == '-'
    ensures AllHexDigits(s[0..8]) && AllHexDigits(s[9..13]) && AllHexDigits(s[14..18])
    ensures AllHexDigits(s[19..23]) && AllHexDigits(s[24..36])
  {
    var b := u.bytes;
    DashedGroups(HexBytes(b[0..4]), HexBytes(b[4..6]), HexBytes(b[6..8]), HexBytes(b[8..10]), HexBytes(b[10..16]));
    HexBytes(b[0..4]) + "-" + HexBytes(b[4..6]) + "-" + HexBytes(b[6..8]) + "-"
      + HexBytes(b[8..10]) + "-" + HexBytes(b[10..16])
  }

  /** `UUID(uuidString:)` for the upper-case form that `uuidString` writes. */
  function Parse(s: string): Option<Uuid>
  {
    if |s| != 36 || s[8] != '-' || s[13] != '-' || s[18] != '-' || s[23] != '-' then None
    else match (ParseHexBytes(s[0..8]), ParseHexBytes(s[9..13]), ParseHexBytes(s[14..18]),
                ParseHexBytes(s[19..23]), ParseHexBytes(s[24..36]))
      case (Some(a), Some(b), Some(c), Some(d), Some(e)) => Some(Uuid(a + b + c + d + e))
      case _ => None
  }

  /** Slicing the five groups back out of their dashed concatenation. */
  lemma DashedGroups(h0: string, h1: string, h2: string, h3: string, h4: string)
    requires |h0| == 8 && |h1| == 4 && |h2| == 4 && |h3| == 4 && |h4| == 12
    ensures var s := h0 + "-" + h1 + "-" + h2 + "-" + h3 + "-" + h4;
            && |s| == 36 && s[8] == '-' && s[13] == '-' && s[18] == '-' && s[23] == '-'
            && s[0..8] == h0 && s[9..13] == h1 && s[14..18] == h2 && s[19..23] == h3 && s[24..36] == h4
  {
  }

  /** Five well-formed groups joined by dashes parse to their bytes, in order. */
  lemma ParseDashed(h0: string, h1: string, h2: string, h3: string, h4: string,
                    x0: seq<byte>, x1: seq<byte>, x2: seq<byte>, x3: seq<byte>, x4: seq<byte>)
    requires |h0| == 8 && |h1| == 4 && |h2| == 4 && |h3| == 4 && |h4| == 12
    requires ParseHexBytes(h0) == Some(x0) && ParseHexBytes(h1) == Some(x1) && ParseHexBytes(h2) == Some(x2)
    requires ParseHexBytes(h3) == Some(x3) && ParseHexBytes(h4) == Some(x4)
    ensures Parse(h0 + "-" + h1 + "-" + h2 + "-" + h3 + "-" + h4) == Some(Uuid(x0 + x1 + x2 + x3 + x4))
  {
    DashedGroups(h0, h1, h2, h3, h4);
  }

  /** The textual form loses nothing: it parses back to the same UUID. */
  lemma TextRoundTrip(u: Uuid)
    requires Valid(u)
    ensures Parse(Text(u)) == Some(u)
  {
    var b := u.bytes;
    GroupsRoundTrip(b[0..4], b[4..6], b[6..8], b[8..10], b[10..16]);
    GroupsCover(b);
  }

  /** The five groups of sixteen bytes make up all of them. */
  lemma GroupsCover(b: seq<byte>)
    requires |b| == 16
    ensures b[0..4] + b[4..6] + b[6..8] + b[8..10] + b[10..16] == b
  {
    assert b[0..4] + b[4..6] == b[0..6];
    assert b[0..6] + b[6..8] == b[0..8];
    assert b[0..8] + b[8..10] == b[0..10];
    assert b[0..10] + b[10..16] == b;
  }

  /** Five byte groups of sizes 4, 2, 2, 2 and 6, written in hexadecimal and
      joined by dashes, parse back to their concatenation. */
  lemma GroupsRoundTrip(x0: seq<byte>, x1: seq<byte>, x2: seq<byte>, x3: seq<byte>, x4: seq<byte>)
    requires |x0| == 4 && |x1| == 2 && |x2| == 2 && |x3| == 2 && |x4| == 6
    ensures Parse(HexBytes(x0) + "-" + HexBytes(x1) + "-" + HexBytes(x2) + "-" + HexBytes(x3) + "-" + HexBytes(x4))
              == Some(Uuid(x0 + x1 + x2 + x3 + x4))
  {
    ParseHexBytesRoundTrip(x0);
    ParseHexBytesRoundTrip(x1);
    ParseHexBytesRoundTrip(x2);
    ParseHexBytesRoundTrip(x3);
    ParseHexBytesRoundTrip(x4);
    ParseDashed(HexBytes(x0), HexBytes(x1), HexBytes(x2), HexBytes(x3), HexBytes(x4), x0, x1, x2, x3, x4);
  }

  /** Distinct UUIDs have distinct textual forms. */
  lemma TextInjective(u: Uuid, v: Uuid)
    requires Valid(u) && Valid(v) && u != v
    ensures Text(u) != Text(v)
  {
    TextRoundTrip(u);
    TextRoundTrip(v);
  }

  /** Distinct UUIDs keep distinct names when a common suffix is appended, as
      the file names `<uuidString>.mov` and `<uuidString>.jpg` are built. */
  lemma SuffixedTextInjective(u: Uuid, v: Uuid, suffix: string)
    requires Valid(u) && Valid(v) && u != v
    ensures Text(u) + suffix != Text(v) + suffix
  {
    TextInjective(u, v);
    assert (Text(u) + suffix)[..36] == Text(u);
    assert (Text(v) + suffix)[..36] == Text(v);
  }

  /** The random source behind `UUID()`: a stream of draws, no two alike. */
  predicate DistinctDraws(draws: seq<Uuid>)
  {
    && (forall i :: 0 <= i < |draws| ==> Valid(draws[i]))
    && (forall i, j :: 0 <= i < j < |draws| ==> draws[i] != draws[j])
  }
}
