/**
 * The two .NET string routines the configuration code relies on:
 * `string.IsNullOrWhiteSpace` (with `char.IsWhiteSpace`) and
 * `Uri.EscapeDataString`, which keeps the unreserved characters of
 * section 2.3 of RFC 3986 and percent-encodes every other UTF-8 octet
 * (section 2.1) with upper-case hex digits.
 */
module UriText {
  import opened Wrappers
  import opened Bytes

  /** `char.IsWhiteSpace`: the Unicode space, line and paragraph separators, U+0009..U+000D and U+0085. */
  predicate IsWhiteSpace(c: char)
  {
    var n := c as int;
    || 0x09 <= n <= 0x0D || n == 0x20 || n == 0x85 || n == 0xA0 || n == 0x1680
    || 0x2000 <= n <= 0x200A || n == 0x2028 || n == 0x2029 || n == 0x202F || n == 0x205F
    || n == 0x3000
  }

  /** `string.IsNullOrWhiteSpace` on a non-null string: empty, or whitespace only. */
  function IsNullOrWhiteSpace(s: string): (blank: bool)
    ensures blank <==> forall i :: 0 <= i < |s| ==> IsWhiteSpace(s[i])
  {
    if s == [] then true else IsWhiteSpace(s[0]) && IsNullOrWhiteSpace(s[1..])
  }

  /** The unreserved characters of section 2.3 of RFC 3986. */
  predicate IsUnreserved(c: char)
  {
    'A' <= c <= 'Z' || 'a' <= c <= 'z' || '0' <= c <= '9' || c == '-' || c == '.' || c == '_' || c == '~'
  }

  /** The UTF-8 encoding of one Unicode scalar value. */
  function Utf8(c: char): (r: seq<byte>)
    ensures 1 <= |r| <= 4
    ensures (c as int < 0x80) == (|r| == 1)
    ensures |r| == 1 ==> r[0] == c as int
  {
    var n := c as int;
    if n < 0x80 then [n]
    else if n < 0x800 then [0xC0 + n / 0x40, 0x80 + n % 0x40]
    else if n < 0x10000 then [0xE0 + n / 0x1000, 0x80 + (n / 0x40) % 0x40, 0x80 + n % 0x40]
    else [0xF0 + n / 0x40000, 0x80 + (n / 0x1000) % 0x40, 0x80 + (n / 0x40) % 0x40, 0x80 + n % 0x40]
  }

  function Utf8Encode(s: string): seq<byte>
  {
    if s == [] then [] else Utf8(s[0]) + Utf8Encode(s[1..])
  }

  function HexDigit(d: int): (c: char)
    requires 0 <= d < 16
    ensures IsHexDigit(c) && HexValue(c) == d
  {
    if d < 10 then (48 + d) as char else (55 + d) as char
  }

  predicate IsHexDigit(c: char)
  {
    '0' <= c <= '9' || 'A' <= c <= 'F' || 'a' <= c <= 'f'
  }

  function HexValue(c: char): int
    requires IsHexDigit(c)
  {
    if c <= '9' then c as int - 48 else if c <= 'F' then c as int - 55 else c as int - 87
  }

  /** `%XX` for each octet. */
  function PercentEncode(bytes: seq<byte>): (r: string)
    ensures |r| == 3 * |bytes|
    ensures forall i :: 0 <= i < |r| ==> IsUnreserved(r[i]) || r[i] == '%'
  {
    if bytes == [] then []
    else ['%', HexDigit(bytes[0] / 16), HexDigit(bytes[0] % 16)] + PercentEncode(bytes[1..])
  }

  function EscapeChar(c: char): string
  {
    if IsUnreserved(c) then [c] else PercentEncode(Utf8(c))
  }

  /**
   * `Uri.EscapeDataString`. The result holds only unreserved characters and
   * `%`, so it can never end the query value early (no `&`, `#`, `=` or space);
   * a string of unreserved characters is left as it is.
   */
  function EscapeDataString(s: string): (r: string)
    ensures forall i :: 0 <= i < |r| ==> IsUnreserved(r[i]) || r[i] == '%'
    ensures (forall i :: 0 <= i < |s| ==> IsUnreserved(s[i])) ==> r == s
    ensures |s| <= |r| <= 12 * |s|
    ensures |s| == 1 && IsUnreserved(s[0]) ==> r == s
    ensures |s| == 1 && !IsUnreserved(s[0]) ==> r == PercentEncode(Utf8(s[0]))
  {
    if s == [] then [] else EscapeChar(s[0]) + EscapeDataString(s[1..])
  }

  /**
   * Escaping works character by character: with the single-character cases
   * above, an unreserved character of a mixed string stays as it is and every
   * other character becomes the percent-encoding of its UTF-8 octets.
   */
  lemma {:induction false} EscapeConcat(s: string, t: string)
    ensures EscapeDataString(s + t) == EscapeDataString(s) + EscapeDataString(t)
    decreases |s|
  {
    if s == [] {
      assert s + t == t;
    } else {
      assert (s + t)[0] == s[0] && (s + t)[1..] == s[1..] + t;
      EscapeConcat(s[1..], t);
    }
  }

  /** A space between two letters is the only character escaped: "a b" becomes "a%20b". */
  lemma EscapeMixedExample()
    ensures EscapeDataString("a b") == "a%20b"
  {
    EscapeConcat("a", " b");
    EscapeConcat(" ", "b");
    assert "a" + " b" == "a b" && " " + "b" == " b";
  }

  function Prepend(bytes: seq<byte>, rest: Option<seq<byte>>): Option<seq<byte>>
  {
    if rest.Some? then Some(bytes + rest.value) else None
  }

  /** The inverse of escaping: the octets a percent-encoded string stands for, or `None` if it is malformed. */
  function PercentDecode(s: string): Option<seq<byte>>
  {
    if s == [] then Some([])
    else if s[0] == '%' then
      if 3 <= |s| && IsHexDigit(s[1]) && IsHexDigit(s[2])
      then Prepend([HexValue(s[1]) * 16 + HexValue(s[2])], PercentDecode(s[3..]))
      else None
    else if IsUnreserved(s[0]) then Prepend([s[0] as int], PercentDecode(s[1..]))
    else None
  }

  lemma {:induction false} DecodePercentEncoded(bytes: seq<byte>, rest: string)
    ensures PercentDecode(PercentEncode(bytes) + rest) == Prepend(bytes, PercentDecode(rest))
  {
    if bytes == [] {
      assert PercentEncode(bytes) + rest == rest;
      if PercentDecode(rest).Some? {
        assert bytes + PercentDecode(rest).value == PercentDecode(rest).value;
      }
    } else {
      var s := PercentEncode(bytes) + rest;
      var b := bytes[0];
      assert s[0] == '%' && s[1] == HexDigit(b / 16) && s[2] == HexDigit(b % 16);
      assert s[3..] == PercentEncode(bytes[1..]) + rest;
      DecodePercentEncoded(bytes[1..], rest);
      assert HexValue(s[1]) * 16 + HexValue(s[2]) == b;
      assert PercentDecode(s) == Prepend([b], Prepend(bytes[1..], PercentDecode(rest)));
      if PercentDecode(rest).Some? {
        assert [b] + (bytes[1..] + PercentDecode(rest).value) == bytes + PercentDecode(rest).value;
      }
    }
  }

  /** Round trip: decoding `EscapeDataString(s)` gives back exactly the UTF-8 octets of `s`. */
  lemma {:induction false} EscapeRoundTrip(s: string)
    ensures PercentDecode(EscapeDataString(s)) == Some(Utf8Encode(s))
  {
    if s != [] {
      var c := s[0];
      var tail := EscapeDataString(s[1..]);
      EscapeRoundTrip(s[1..]);
      if IsUnreserved(c) {
        assert (EscapeChar(c) + tail)[1..] == tail;
      } else {
        DecodePercentEncoded(Utf8(c), tail);
      }
    }
  }
}
