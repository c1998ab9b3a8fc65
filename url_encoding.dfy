/**
 * PHP's `urlencode`: the application/x-www-form-urlencoded encoding of
 * section 17.13.4.1 of HTML 4.01, with escapes as in section 2.2 of
 * RFC 1738. ASCII letters, digits and `-_.` pass through, a space becomes
 * `+`, and every other byte becomes `%XX` with upper-case hexadecimal
 * digits. PHP strings are byte strings; a byte is modelled as the
 * character with that code. `UrlDecode` (PHP's `urldecode`) is its inverse.
 */
module UrlEncoding {

  /** One byte of a PHP string. */
  type Byte = c: char | c as int < 256

  type Bytes = seq<Byte>

  /** The bytes `urlencode` leaves as they are. */
  predicate IsUnreserved(b: Byte) {
    || 'a' <= b <= 'z'
    || 'A' <= b <= 'Z'
    || '0' <= b <= '9'
    || b == '-' || b == '_' || b == '.'
  }

  const HexDigits: Bytes := "0123456789ABCDEF"

  predicate IsHexDigit(b: Byte) {
    '0' <= b <= '9' || 'A' <= b <= 'F' || 'a' <= b <= 'f'
  }

  /** The value of a hexadecimal digit, in either case. */
  function HexValue(b: Byte): (n: nat)
    requires IsHexDigit(b)
    ensures n < 16
  {
    if '0' <= b <= '9' then b as int - '0' as int
    else if 'A' <= b <= 'F' then b as int - 'A' as int + 10
    else b as int - 'a' as int + 10
  }

  lemma HexDigitsInverse(n: nat)
    requires n < 16
    ensures IsHexDigit(HexDigits[n]) && HexValue(HexDigits[n]) == n
  {
  }

  /** What `urlencode` may output: unreserved bytes, `+` and `%`. */
  predicate IsEncodedByte(b: Byte) {
    IsUnreserved(b) || b == '+' || b == '%'
  }

  /** The encoding of one byte. */
  function EncodeByte(b: Byte): (r: Bytes)
    ensures 1 <= |r| <= 3
    ensures forall i :: 0 <= i < |r| ==> IsEncodedByte(r[i])
  {
    if IsUnreserved(b) then [b]
    else if b == ' ' then ['+']
    else ['%', HexDigits[b as int / 16], HexDigits[b as int % 16]]
  }

  /** `urlencode`: each byte becomes one to three bytes. */
  function UrlEncode(s: Bytes): (r: Bytes)
    ensures |s| <= |r| <= 3 * |s|
  {
    if s == [] then [] else EncodeByte(s[0]) + UrlEncode(s[1..])
  }

  /** The output of `urlencode` consists of unreserved bytes, `+` and `%` only. */
  lemma {:induction false} UrlEncodeAlphabet(s: Bytes)
    ensures forall i :: 0 <= i < |UrlEncode(s)| ==> IsEncodedByte(UrlEncode(s)[i])
  {
    if s != [] {
      UrlEncodeAlphabet(s[1..]);
      var head, tail := EncodeByte(s[0]), UrlEncode(s[1..]);
      assert UrlEncode(s) == head + tail;
      forall i | 0 <= i < |head + tail| ensures IsEncodedByte((head + tail)[i]) {
        if i < |head| {
          assert (head + tail)[i] == head[i];
        } else {
          assert (head + tail)[i] == tail[i - |head|];
        }
      }
    }
  }

  /** So `urlencode` never outputs a space or a delimiter of a query string. */
  lemma UrlEncodeNoDelimiters(s: Bytes)
    ensures var r := UrlEncode(s); '?' !in r && '&' !in r && '=' !in r && ' ' !in r && '#' !in r
  {
    UrlEncodeAlphabet(s);
  }

  /**
   * `urldecode`: `+` is a space, `%` followed by two hexadecimal digits is
   * the byte they spell, and any other byte stands for itself.
   */
  function UrlDecode(s: Bytes): (r: Bytes)
    ensures |r| <= |s|
    decreases |s|
  {
    if s == [] then []
    else if s[0] == '+' then [' '] + UrlDecode(s[1..])
    else if s[0] == '%' && |s| >= 3 && IsHexDigit(s[1]) && IsHexDigit(s[2]) then
      [(HexValue(s[1]) * 16 + HexValue(s[2])) as char] + UrlDecode(s[3..])
    else [s[0]] + UrlDecode(s[1..])
  }

  lemma {:induction false} DecodeEncodedByte(b: Byte, rest: Bytes)
    ensures UrlDecode(EncodeByte(b) + rest) == [b] + UrlDecode(rest)
  {
    var e := EncodeByte(b) + rest;
    if IsUnreserved(b) {
      assert e[0] == b && e[1..] == rest;
    } else if b == ' ' {
      assert e[0] == '+' && e[1..] == rest;
    } else {
      var hi, lo := b as int / 16, b as int % 16;
      HexDigitsInverse(hi);
      HexDigitsInverse(lo);
      assert e[0] == '%' && e[1] == HexDigits[hi] && e[2] == HexDigits[lo] && e[3..] == rest;
      assert (hi * 16 + lo) as char == b;
    }
  }

  /** Decoding undoes encoding, for every byte string. */
  lemma {:induction false} UrlRoundTrip(s: Bytes)
    ensures UrlDecode(UrlEncode(s)) == s
  {
    if s != [] {
      DecodeEncodedByte(s[0], UrlEncode(s[1..]));
      UrlRoundTrip(s[1..]);
    }
  }

  /** A string of unreserved bytes encodes to itself. */
  lemma {:induction false} UrlEncodeUnreserved(s: Bytes)
    requires forall i :: 0 <= i < |s| ==> IsUnreserved(s[i])
    ensures UrlEncode(s) == s
  {
    if s != [] {
      UrlEncodeUnreserved(s[1..]);
    }
  }
}
