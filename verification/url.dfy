/**
 * `urllib.parse.urlencode` as the LinkedIn guest search uses it: every key
 * and value goes through `quote_plus`, which keeps the unreserved ASCII
 * characters, writes a space as `+` and every other character as the
 * `%XX` escapes of its UTF-8 bytes (RFC 3986, section 2.1).
 */
module Url {

  import opened Text

  /** The characters `quote_plus` leaves alone: letters, digits and `_.-~`. */
  predicate IsUnreserved(c: char) {
    'A' <= c <= 'Z' || 'a' <= c <= 'z' || '0' <= c <= '9' || c == '_' || c == '.' || c == '-' || c == '~'
  }

  /**
   * The UTF-8 encoding of one character (RFC 3629, section 3): the shortest
   * form, a lead byte announcing the length followed by continuation bytes
   * `10xxxxxx`, whose payload bits read back as the code point.
   */
  function Utf8(c: char): (r: seq<int>)
    ensures 1 <= |r| <= 4
    ensures forall k :: 0 <= k < |r| ==> 0 <= r[k] < 256
    ensures |r| == 1 <==> (c as int) < 0x80
    ensures |r| == 2 <==> 0x80 <= (c as int) < 0x800
    ensures |r| == 3 <==> 0x800 <= (c as int) < 0x10000
    ensures (c as int) < 0x80 ==> r == [c as int]
    ensures |r| == 2 ==> 0xC2 <= r[0] <= 0xDF
    ensures |r| == 3 ==> 0xE0 <= r[0] <= 0xEF
    ensures |r| == 4 ==> 0xF0 <= r[0] <= 0xF4
    ensures forall k :: 1 <= k < |r| ==> 0x80 <= r[k] < 0xC0
    ensures Utf8Value(r) == c as int
  {
    var n := c as int;
    var q1 := n / 64;
    var q2 := q1 / 64;
    Split64(n);
    Split64(q1);
    Split64(q2);
    if n < 0x80 then [n]
    else if n < 0x800 then [0xC0 + q1, 0x80 + n % 64]
    else if n < 0x10000 then [0xE0 + q2, 0x80 + q1 % 64, 0x80 + n % 64]
    else [0xF0 + q2 / 64, 0x80 + q2 % 64, 0x80 + q1 % 64, 0x80 + n % 64]
  }

  /** Six low bits split off: `n == 64 * (n >> 6) + (n & 63)`. */
  lemma Split64(n: nat)
    ensures n == 64 * (n / 64) + n % 64 && 0 <= n % 64 < 64
  {
  }

  /** The code point a well-formed one-character UTF-8 sequence stands for: the payload bits of its bytes. */
  function Utf8Value(r: seq<int>): int {
    if |r| == 1 then r[0]
    else if |r| == 2 then (r[0] - 0xC0) * 64 + (r[1] - 0x80)
    else if |r| == 3 then (r[0] - 0xE0) * 4096 + (r[1] - 0x80) * 64 + (r[2] - 0x80)
    else if |r| == 4 then (r[0] - 0xF0) * 262144 + (r[1] - 0x80) * 4096 + (r[2] - 0x80) * 64 + (r[3] - 0x80)
    else -1
  }

  /** The bytes of a whole string. */
  function Utf8Bytes(s: string): seq<int> {
    if |s| == 0 then [] else Utf8(s[0]) + Utf8Bytes(s[1..])
  }

  function HexUpper(d: int): (c: char)
    requires 0 <= d < 16
  {
    if d < 10 then (d + '0' as int) as char else (d - 10 + 'A' as int) as char
  }

  predicate IsHex(c: char) {
    '0' <= c <= '9' || 'A' <= c <= 'F' || 'a' <= c <= 'f'
  }

  function HexValue(c: char): (d: int)
    requires IsHex(c)
    ensures 0 <= d < 16
  {
    if '0' <= c <= '9' then c as int - '0' as int
    else if 'A' <= c <= 'F' then c as int - 'A' as int + 10
    else c as int - 'a' as int + 10
  }

  /** `%XX` for one byte, upper-case hexadecimal. */
  function PercentByte(b: int): (r: string)
    requires 0 <= b < 256
    ensures |r| == 3 && r[0] == '%' && IsHex(r[1]) && IsHex(r[2])
    ensures HexValue(r[1]) * 16 + HexValue(r[2]) == b
  {
    ['%', HexUpper(b / 16), HexUpper(b % 16)]
  }

  function PercentBytes(bs: seq<int>): string
    requires forall k :: 0 <= k < |bs| ==> 0 <= bs[k] < 256
  {
    if |bs| == 0 then "" else PercentByte(bs[0]) + PercentBytes(bs[1..])
  }

  function QuotePlusChar(c: char): string {
    if IsUnreserved(c) then [c]
    else if c == ' ' then "+"
    else PercentBytes(Utf8(c))
  }

  /** `quote_plus(s)`: unreserved characters kept, spaces as `+`, the rest percent-escaped. */
  function QuotePlus(s: string): (r: string)
    ensures (forall k :: 0 <= k < |s| ==> IsUnreserved(s[k])) ==> r == s
  {
    if |s| == 0 then "" else QuotePlusChar(s[0]) + QuotePlus(s[1..])
  }

  /** The alphabet of an encoded string: unreserved characters, `+`, `%` and hexadecimal digits. */
  predicate IsEncodedChar(c: char) {
    IsUnreserved(c) || c == '+' || c == '%'
  }

  lemma {:induction false} PercentBytesAlphabet(bs: seq<int>)
    requires forall k :: 0 <= k < |bs| ==> 0 <= bs[k] < 256
    ensures forall k :: 0 <= k < |PercentBytes(bs)| ==> IsEncodedChar(PercentBytes(bs)[k])
  {
    if |bs| > 0 {
      PercentBytesAlphabet(bs[1..]);
      var head, tail := PercentByte(bs[0]), PercentBytes(bs[1..]);
      assert forall k :: 0 <= k < |head| ==> IsEncodedChar(head[k]);
      assert forall k :: 0 <= k < |head + tail| ==> (head + tail)[k] == (if k < |head| then head[k] else tail[k - |head|]);
    }
  }

  /** An encoded string never contains the query's delimiters `&`, `=`, `?`, `#` or a space. */
  lemma {:induction false} QuotePlusAlphabet(s: string)
    ensures forall k :: 0 <= k < |QuotePlus(s)| ==> IsEncodedChar(QuotePlus(s)[k])
  {
    if |s| > 0 {
      QuotePlusAlphabet(s[1..]);
      var head, tail := QuotePlusChar(s[0]), QuotePlus(s[1..]);
      if !IsUnreserved(s[0]) && s[0] != ' ' {
        PercentBytesAlphabet(Utf8(s[0]));
      }
      assert forall k :: 0 <= k < |head + tail| ==> (head + tail)[k] == (if k < |head| then head[k] else tail[k - |head|]);
    }
  }

  /**
   * Percent-decoding to bytes (`unquote_to_bytes` after `+` becomes a
   * space): `%XX` is one byte, `+` is 0x20, any other character its code.
   */
  function PercentDecode(s: string): seq<int> {
    if |s| == 0 then []
    else if s[0] == '%' && |s| >= 3 && IsHex(s[1]) && IsHex(s[2]) then [HexValue(s[1]) * 16 + HexValue(s[2])] + PercentDecode(s[3..])
    else if s[0] == '+' then [0x20] + PercentDecode(s[1..])
    else [s[0] as int] + PercentDecode(s[1..])
  }

  lemma {:induction false} PercentBytesDecode(bs: seq<int>, rest: string)
    requires forall k :: 0 <= k < |bs| ==> 0 <= bs[k] < 256
    ensures PercentDecode(PercentBytes(bs) + rest) == bs + PercentDecode(rest)
  {
    if |bs| > 0 {
      var b, tail := bs[0], bs[1..];
      var e, more := PercentByte(b), PercentBytes(tail);
      PercentBytesDecode(tail, rest);
      assert PercentBytes(bs) == e + more;
      ConcatAssoc(e, more, rest);
      PercentByteDecode(b, more + rest);
      assert bs == [b] + tail;
      ConcatAssoc([b], tail, PercentDecode(rest));
    } else {
      assert PercentBytes(bs) + rest == rest;
    }
  }

  /** One escape decodes to its byte, and decoding carries on after it. */
  lemma PercentByteDecode(b: int, t: string)
    requires 0 <= b < 256
    ensures PercentDecode(PercentByte(b) + t) == [b] + PercentDecode(t)
  {
    var e := PercentByte(b);
    var s := e + t;
    assert s[0] == '%' && s[1] == e[1] && s[2] == e[2];
    assert s[3..] == t;
  }

  /** Decoding what `quote_plus` wrote gives the UTF-8 bytes of the original text. */
  lemma {:induction false} QuotePlusDecodes(s: string)
    ensures PercentDecode(QuotePlus(s)) == Utf8Bytes(s)
  {
    if |s| > 0 {
      QuotePlusDecodes(s[1..]);
      var c, tail := s[0], QuotePlus(s[1..]);
      if IsUnreserved(c) {
        assert ([c] + tail)[0] == c && ([c] + tail)[1..] == tail;
      } else if c == ' ' {
        assert ("+" + tail)[1..] == tail;
      } else {
        PercentBytesDecode(Utf8(c), tail);
      }
    }
  }

  /** One `key=value` field of an encoded query. */
  function Field(param: (string, string)): string {
    QuotePlus(param.0) + "=" + QuotePlus(param.1)
  }

  /** `urlencode(params)`: the encoded fields in order, joined with `&`. */
  function UrlEncode(params: seq<(string, string)>): string {
    Join("&", seq(|params|, i requires 0 <= i < |params| => Field(params[i])))
  }

  /** Splitting an encoded query on `&` gives back one field per parameter, in order. */
  lemma UrlEncodeFields(params: seq<(string, string)>)
    requires |params| >= 1
    ensures SplitOn(UrlEncode(params), '&') == seq(|params|, i requires 0 <= i < |params| => Field(params[i]))
  {
    var fields := seq(|params|, i requires 0 <= i < |params| => Field(params[i]));
    forall i | 0 <= i < |fields| ensures '&' !in fields[i] {
      FieldPlainAmp(params[i]);
    }
    SplitOnJoin(fields, '&');
  }

  /** An encoded field holds no `&`. */
  lemma FieldPlainAmp(param: (string, string))
    ensures '&' !in Field(param)
  {
    var k, v := QuotePlus(param.0), QuotePlus(param.1);
    QuotePlusAlphabet(param.0);
    QuotePlusAlphabet(param.1);
    var f := k + "=" + v;
    assert forall j :: 0 <= j < |f| ==> f[j] == (if j < |k| then k[j] else if j == |k| then '=' else v[j - |k| - 1]);
    assert forall j :: 0 <= j < |f| ==> f[j] == '=' || IsEncodedChar(f[j]);
  }

  /** Encoding distributes over concatenation: each character is encoded on its own. */
  lemma {:induction false} QuotePlusAppend(s: string, t: string)
    ensures QuotePlus(s + t) == QuotePlus(s) + QuotePlus(t)
  {
    if |s| > 0 {
      var st := s + t;
      assert st[0] == s[0] && st[1..] == s[1..] + t;
      var head, rest := QuotePlusChar(s[0]), QuotePlus(s[1..]);
      assert QuotePlus(st) == head + QuotePlus(s[1..] + t);
      QuotePlusAppend(s[1..], t);
      assert QuotePlus(s) == head + rest;
      assert head + (rest + QuotePlus(t)) == (head + rest) + QuotePlus(t);
    } else {
      assert s + t == t;
    }
  }

  /** A non-ASCII letter becomes the escapes of its UTF-8 bytes. */
  lemma QuotePlusEnye()
    ensures QuotePlus("ñ") == "%C3%B1"
  {
    assert Utf8('ñ') == [0xC3, 0xB1];
  }
}
