/**
 * Python's `urllib.parse.quote_plus(s)` with its default `safe=''`: the string
 * is encoded as UTF-8, every byte that is an unreserved character of RFC 3986
 * (section 2.3: letters, digits, `-`, `.`, `_`, `~`) is kept, a space becomes
 * `+`, and every other byte becomes `%XX` with upper-case hexadecimal digits
 * (RFC 3986 section 2.1).
 */
module UrlEncoding {
  import opened Wrappers

  type byte = x: int | 0 <= x < 256

  /** The UTF-8 encoding of one Unicode scalar value. */
  function Utf8(c: char): (r: seq<byte>)
    ensures 1 <= |r| <= 4
    ensures c as int < 0x80 ==> r == [c as int]
    ensures c as int >= 0x80 ==> forall i :: 0 <= i < |r| ==> r[i] >= 0x80
  {
    var cp := c as int;
    if cp < 0x80 then [cp]
    else if cp < 0x800 then [0xC0 + cp / 0x40, 0x80 + cp % 0x40]
    else if cp < 0x1_0000 then [0xE0 + cp / 0x1000, 0x80 + (cp / 0x40) % 0x40, 0x80 + cp % 0x40]
    else [0xF0 + cp / 0x4_0000, 0x80 + (cp / 0x1000) % 0x40, 0x80 + (cp / 0x40) % 0x40, 0x80 + cp % 0x40]
  }

  function Utf8Encode(s: string): (r: seq<byte>)
    ensures |r| >= |s|
    ensures r == [] <==> s == []
  {
    if s == [] then [] else Utf8(s[0]) + Utf8Encode(s[1..])
  }

  /** The unreserved characters of RFC 3986 section 2.3. */
  predicate Unreserved(c: char) {
    'A' <= c <= 'Z' || 'a' <= c <= 'z' || '0' <= c <= '9' || c == '-' || c == '.' || c == '_' || c == '~'
  }

  /** What `quote_plus` output is made of: unreserved characters, `%` and `+`. */
  predicate Encoded(c: char) {
    Unreserved(c) || c == '%' || c == '+'
  }

  /** The value of a hexadecimal digit of either case, or -1. */
  function HexValue(c: char): int {
    if '0' <= c <= '9' then c as int - '0' as int
    else if 'A' <= c <= 'F' then c as int - 'A' as int + 10
    else if 'a' <= c <= 'f' then c as int - 'a' as int + 10
    else -1
  }

  /** An upper-case hexadecimal digit, as `quote_plus` writes them. */
  predicate UpperHex(c: char) {
    '0' <= c <= '9' || 'A' <= c <= 'F'
  }

  function HexDigit(k: int): (c: char)
    requires 0 <= k < 16
    ensures UpperHex(c) && Unreserved(c)
    ensures HexValue(c) == k
  {
    if k < 10 then ('0' as int + k) as char else ('A' as int + k - 10) as char
  }

  /**
   * One byte of `quote_plus`: an unreserved byte stands for itself, a space
   * becomes `+`, and any other byte becomes `%` and two upper-case hexadecimal
   * digits whose value is the byte.
   */
  function EncodeByte(b: byte): (r: string)
    ensures forall i :: 0 <= i < |r| ==> Encoded(r[i])
    ensures b < 0x80 && Unreserved(b as char) ==> r == [b as char]
    ensures b == 0x20 ==> r == "+"
    ensures !(b < 0x80 && Unreserved(b as char)) && b != 0x20 ==>
      |r| == 3 && r[0] == '%' && UpperHex(r[1]) && UpperHex(r[2]) && HexValue(r[1]) * 16 + HexValue(r[2]) == b
  {
    if b < 0x80 && Unreserved(b as char) then [b as char]
    else if b == 0x20 then "+"
    else ['%', HexDigit(b / 16), HexDigit(b % 16)]
  }

  function QuotePlusBytes(bs: seq<byte>): (r: string)
    ensures forall i :: 0 <= i < |r| ==> Encoded(r[i])
    ensures r == [] <==> bs == []
  {
    if bs == [] then [] else EncodeByte(bs[0]) + QuotePlusBytes(bs[1..])
  }

  /** `quote_plus(s)`: its output never holds `@`, `:` or `/`, the URI delimiters. */
  function QuotePlus(s: string): (r: string)
    ensures forall i :: 0 <= i < |r| ==> Encoded(r[i])
    ensures '@' !in r && ':' !in r && '/' !in r
    ensures r == [] <==> s == []
  {
    QuotePlusBytes(Utf8Encode(s))
  }

  /**
   * The inverse of QuotePlusBytes, as `unquote_to_bytes` with `+` read as a
   * space; None for text that no encoding produces.
   */
  function PercentDecode(e: string): Option<seq<byte>>
    decreases |e|
  {
    if e == [] then Some([])
    else if e[0] == '+' then Prepend(0x20, PercentDecode(e[1..]))
    else if e[0] == '%' then
      if |e| >= 3 && HexValue(e[1]) >= 0 && HexValue(e[2]) >= 0
      then Prepend(HexValue(e[1]) * 16 + HexValue(e[2]), PercentDecode(e[3..]))
      else None
    else if e[0] as int < 0x80 then Prepend(e[0] as int, PercentDecode(e[1..]))
    else None
  }

  function Prepend(b: byte, rest: Option<seq<byte>>): Option<seq<byte>> {
    match rest
    case None => None
    case Some(bs) => Some([b] + bs)
  }

  lemma DecodeEncodedByte(b: byte, rest: string)
    ensures PercentDecode(EncodeByte(b) + rest) == Prepend(b, PercentDecode(rest))
  {
    var e := EncodeByte(b) + rest;
    if b < 0x80 && Unreserved(b as char) {
      assert e[0] == b as char && e[1..] == rest;
    } else if b == 0x20 {
      assert e[0] == '+' && e[1..] == rest;
    } else {
      assert e[0] == '%' && e[1] == HexDigit(b / 16) && e[2] == HexDigit(b % 16) && e[3..] == rest;
    }
  }

  /** Decoding undoes the byte-level encoding. */
  lemma {:induction false} QuotePlusBytesRoundTrip(bs: seq<byte>)
    ensures PercentDecode(QuotePlusBytes(bs)) == Some(bs)
  {
    if bs != [] {
      DecodeEncodedByte(bs[0], QuotePlusBytes(bs[1..]));
      QuotePlusBytesRoundTrip(bs[1..]);
      assert [bs[0]] + bs[1..] == bs;
    }
  }

  /** Decoding `quote_plus(s)` gives back the UTF-8 bytes of s. */
  lemma QuotePlusRoundTrip(s: string)
    ensures PercentDecode(QuotePlus(s)) == Some(Utf8Encode(s))
  {
    QuotePlusBytesRoundTrip(Utf8Encode(s));
  }

  /** A string made only of unreserved characters passes through unchanged. */
  lemma {:induction false} QuotePlusKeepsUnreserved(s: string)
    requires forall i :: 0 <= i < |s| ==> Unreserved(s[i])
    ensures QuotePlus(s) == s
  {
    if s != [] {
      assert Utf8Encode(s) == [s[0] as int] + Utf8Encode(s[1..]);
      QuotePlusKeepsUnreserved(s[1..]);
      assert QuotePlusBytes(Utf8Encode(s)) == [s[0]] + QuotePlusBytes(Utf8Encode(s[1..]));
      assert [s[0]] + s[1..] == s;
    }
  }
}
