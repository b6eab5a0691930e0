/** `encodeURIComponent` and its inverse `decodeURIComponent` (ECMA-262,
    section 19.2.6, "URI Handling Functions"), over strings of Unicode scalar
    values: every code point outside the unreserved set becomes the `%XX`
    triples of its UTF-8 bytes, with upper-case hexadecimal digits. */
module UriEncoding {
  import opened Wrappers

  newtype byte = x: int | 0 <= x < 256

  /** The characters `encodeURIComponent` leaves as they are:
      `A-Z a-z 0-9 - _ . ! ~ * ' ( )`. */
  predicate IsUnreserved(c: char) {
    ('A' <= c <= 'Z') || ('a' <= c <= 'z') || ('0' <= c <= '9') ||
    c == '-' || c == '_' || c == '.' || c == '!' || c == '~' ||
    c == '*' || c == '\'' || c == '(' || c == ')'
  }

  predicate IsUpperHex(c: char) {
    ('0' <= c <= '9') || ('A' <= c <= 'F')
  }

  /** The value of a hexadecimal digit of either case. */
  function HexValue(c: char): (v: Option<int>)
    ensures v.Some? ==> 0 <= v.value < 16
  {
    if '0' <= c <= '9' then Some(c as int - '0' as int)
    else if 'A' <= c <= 'F' then Some(c as int - 'A' as int + 10)
    else if 'a' <= c <= 'f' then Some(c as int - 'a' as int + 10)
    else None
  }

  /** The upper-case hexadecimal digit for `n`. */
  function HexDigit(n: int): (c: char)
    requires 0 <= n < 16
    ensures IsUpperHex(c) && HexValue(c) == Some(n)
  {
    if n < 10 then ('0' as int + n) as char else ('A' as int + n - 10) as char
  }

  /** The UTF-8 encoding of one code point (RFC 3629, section 3). */
  function Utf8(c: char): (bs: seq<byte>)
    ensures 1 <= |bs| <= 4
    ensures (c as int < 0x80) <==> |bs| == 1
  {
    var cp := c as int;
    if cp < 0x80 then
      [cp as byte]
    else if cp < 0x800 then
      [(0xC0 + cp / 64) as byte, (0x80 + cp % 64) as byte]
    else if cp < 0x10000 then
      var q1 := cp / 64;
      [(0xE0 + q1 / 64) as byte, (0x80 + q1 % 64) as byte, (0x80 + cp % 64) as byte]
    else
      var q1 := cp / 64;
      var q2 := q1 / 64;
      [(0xF0 + q2 / 64) as byte, (0x80 + q2 % 64) as byte,
       (0x80 + q1 % 64) as byte, (0x80 + cp % 64) as byte]
  }

  /** The length of the UTF-8 sequence a leading byte announces, 0 when the
      byte cannot lead one. */
  function SequenceLength(b: byte): nat {
    if b < 0x80 then 1
    else if 0xC0 <= b < 0xE0 then 2
    else if 0xE0 <= b < 0xF0 then 3
    else if 0xF0 <= b < 0xF8 then 4
    else 0
  }

  predicate IsContinuation(b: byte) {
    0x80 <= b < 0xC0
  }

  /** Decodes one complete UTF-8 sequence, rejecting overlong forms,
      surrogates and values beyond U+10FFFF. */
  function Utf8Decode(bs: seq<byte>): Option<char> {
    if |bs| == 1 && bs[0] < 0x80 then
      Some(bs[0] as int as char)
    else if |bs| == 2 && SequenceLength(bs[0]) == 2 && IsContinuation(bs[1]) then
      var cp := (bs[0] as int - 0xC0) * 64 + (bs[1] as int - 0x80);
      if 0x80 <= cp then Some(cp as char) else None
    else if |bs| == 3 && SequenceLength(bs[0]) == 3 && IsContinuation(bs[1]) && IsContinuation(bs[2]) then
      var cp := ((bs[0] as int - 0xE0) * 64 + (bs[1] as int - 0x80)) * 64 + (bs[2] as int - 0x80);
      if 0x800 <= cp && !(0xD800 <= cp < 0xE000) then Some(cp as char) else None
    else if |bs| == 4 && SequenceLength(bs[0]) == 4 && IsContinuation(bs[1]) &&
            IsContinuation(bs[2]) && IsContinuation(bs[3]) then
      var cp := (((bs[0] as int - 0xF0) * 64 + (bs[1] as int - 0x80)) * 64 + (bs[2] as int - 0x80)) * 64
                + (bs[3] as int - 0x80);
      if 0x10000 <= cp <= 0x10FFFF then Some(cp as char) else None
    else
      None
  }

  /** UTF-8 decoding undoes UTF-8 encoding, and the leading byte announces
      the length of the whole sequence. */
  lemma Utf8RoundTrip(c: char)
    ensures Utf8Decode(Utf8(c)) == Some(c)
    ensures SequenceLength(Utf8(c)[0]) == |Utf8(c)|
  {
    var cp := c as int;
    if cp < 0x80 {
    } else if cp < 0x800 {
      assert cp == (cp / 64) * 64 + cp % 64;
    } else if cp < 0x10000 {
      var q1 := cp / 64;
      assert cp == q1 * 64 + cp % 64;
      assert q1 == (q1 / 64) * 64 + q1 % 64;
    } else {
      var q1 := cp / 64;
      var q2 := q1 / 64;
      assert cp == q1 * 64 + cp % 64;
      assert q1 == q2 * 64 + q1 % 64;
      assert q2 == (q2 / 64) * 64 + q2 % 64;
    }
  }

  /** `%XX` for one byte. */
  function PercentByte(b: byte): string {
    ['%', HexDigit(b as int / 16), HexDigit(b as int % 16)]
  }

  function PercentBytes(bs: seq<byte>): (s: string)
    ensures |s| == 3 * |bs|
  {
    if bs == [] then [] else PercentByte(bs[0]) + PercentBytes(bs[1..])
  }

  /** The encoding of one code point. */
  function EncodeChar(c: char): string {
    if IsUnreserved(c) then [c] else PercentBytes(Utf8(c))
  }

  /** `encodeURIComponent(s)`: each code point becomes itself or one to
      four `%XX` triples, so the result is never shorter than the input and
      is empty only for the empty input. */
  function EncodeUriComponent(s: string): (r: string)
    ensures |s| <= |r| <= 12 * |s|
  {
    if s == [] then [] else EncodeChar(s[0]) + EncodeUriComponent(s[1..])
  }

  /** Encoding works code point by code point, so it distributes over
      concatenation. */
  lemma {:induction false} EncodeAppend(a: string, b: string)
    ensures EncodeUriComponent(a + b) == EncodeUriComponent(a) + EncodeUriComponent(b)
  {
    if a != [] {
      assert (a + b)[0] == a[0] && (a + b)[1..] == a[1..] + b;
      EncodeAppend(a[1..], b);
    } else {
      assert a + b == b;
    }
  }

  /** A string of unreserved characters encodes to itself. */
  lemma {:induction false} EncodeUnreserved(s: string)
    requires forall k :: 0 <= k < |s| ==> IsUnreserved(s[k])
    ensures EncodeUriComponent(s) == s
  {
    if s != [] {
      EncodeUnreserved(s[1..]);
      assert [s[0]] + s[1..] == s;
    }
  }

  /** Reads `n` consecutive `%XX` triples at the start of `s`. */
  function ReadTriples(s: string, n: nat): (r: Option<seq<byte>>)
    ensures r.Some? ==> |r.value| == n && 3 * n <= |s|
  {
    if n == 0 then Some([])
    else if |s| < 3 || s[0] != '%' then None
    else
      match (HexValue(s[1]), HexValue(s[2]))
      case (Some(h), Some(l)) =>
        (match ReadTriples(s[3..], n - 1)
         case Some(bs) => Some([(h * 16 + l) as byte] + bs)
         case None => None)
      case _ => None
  }

  /** Decodes the first code point of a non-empty `s`, with the number of
      characters it took; `None` where `decodeURIComponent` throws a
      `URIError`. */
  function DecodeOne(s: string): (r: Option<(char, nat)>)
    requires s != []
    ensures r.Some? ==> 1 <= r.value.1 <= |s|
  {
    if s[0] != '%' then Some((s[0], 1))
    else
      match ReadTriples(s, 1)
      case None => None
      case Some(first) =>
        var len := SequenceLength(first[0]);
        if len == 0 then None
        else
          match ReadTriples(s, len)
          case None => None
          case Some(bs) =>
            (match Utf8Decode(bs)
             case None => None
             case Some(c) => Some((c, 3 * len)))
  }

  /** `decodeURIComponent(s)`; `None` where it throws a `URIError`. */
  function DecodeUriComponent(s: string): Option<string>
    decreases |s|
  {
    if s == [] then Some([])
    else
      match DecodeOne(s)
      case None => None
      case Some((c, n)) =>
        match DecodeUriComponent(s[n..])
        case None => None
        case Some(rest) => Some([c] + rest)
  }

  lemma ReadPercentBytes(bs: seq<byte>, rest: string)
    ensures ReadTriples(PercentBytes(bs) + rest, |bs|) == Some(bs)
  {
    if bs != [] {
      var b := bs[0];
      var s := PercentBytes(bs) + rest;
      assert s == PercentByte(b) + (PercentBytes(bs[1..]) + rest);
      assert s[3..] == PercentBytes(bs[1..]) + rest;
      assert b as int == (b as int / 16) * 16 + b as int % 16;
      ReadPercentBytes(bs[1..], rest);
      assert [b] + bs[1..] == bs;
    }
  }

  lemma DecodeEncodedChar(c: char, rest: string)
    ensures DecodeOne(EncodeChar(c) + rest) == Some((c, |EncodeChar(c)|))
  {
    var s := EncodeChar(c) + rest;
    if !IsUnreserved(c) {
      var bs := Utf8(c);
      Utf8RoundTrip(c);
      assert s == PercentBytes([bs[0]]) + (PercentBytes(bs[1..]) + rest);
      ReadPercentBytes([bs[0]], PercentBytes(bs[1..]) + rest);
      ReadPercentBytes(bs, rest);
    }
  }

  /** `decodeURIComponent(encodeURIComponent(s)) === s`. */
  lemma {:induction false} DecodeEncode(s: string)
    ensures DecodeUriComponent(EncodeUriComponent(s)) == Some(s)
  {
    if s != [] {
      var e := EncodeUriComponent(s);
      DecodeEncodedChar(s[0], EncodeUriComponent(s[1..]));
      assert e[|EncodeChar(s[0])|..] == EncodeUriComponent(s[1..]);
      DecodeEncode(s[1..]);
      assert [s[0]] + s[1..] == s;
    }
  }

  /** `encodeURIComponent` is injective: distinct inputs never collide. */
  lemma EncodeInjective(s: string, t: string)
    requires EncodeUriComponent(s) == EncodeUriComponent(t)
    ensures s == t
  {
    DecodeEncode(s);
    DecodeEncode(t);
  }

  /** A string made only of unreserved characters and `%XX` triples with
      upper-case digits. */
  predicate WellEncoded(s: string)
    decreases |s|
  {
    s == [] ||
    (IsUnreserved(s[0]) && WellEncoded(s[1..])) ||
    (|s| >= 3 && s[0] == '%' && IsUpperHex(s[1]) && IsUpperHex(s[2]) && WellEncoded(s[3..]))
  }

  lemma {:induction false} WellEncodedAppend(a: string, b: string)
    requires WellEncoded(a) && WellEncoded(b)
    ensures WellEncoded(a + b)
    decreases |a|
  {
    if a == [] {
      assert a + b == b;
    } else if IsUnreserved(a[0]) && WellEncoded(a[1..]) {
      WellEncodedAppend(a[1..], b);
      assert (a + b)[1..] == a[1..] + b;
    } else {
      WellEncodedAppend(a[3..], b);
      assert (a + b)[3..] == a[3..] + b;
    }
  }

  lemma {:induction false} PercentBytesWellEncoded(bs: seq<byte>)
    ensures WellEncoded(PercentBytes(bs))
  {
    if bs != [] {
      PercentBytesWellEncoded(bs[1..]);
      var s := PercentBytes(bs);
      assert s[3..] == PercentBytes(bs[1..]);
    }
  }

  /** What `encodeURIComponent` produces holds only unreserved characters and
      `%XX` triples. */
  lemma {:induction false} EncodeWellEncoded(s: string)
    ensures WellEncoded(EncodeUriComponent(s))
  {
    if s != [] {
      var c := s[0];
      if IsUnreserved(c) {
        assert WellEncoded([c][1..]);
      } else {
        PercentBytesWellEncoded(Utf8(c));
      }
      EncodeWellEncoded(s[1..]);
      WellEncodedAppend(EncodeChar(c), EncodeUriComponent(s[1..]));
    }
  }

  /** A well-encoded string holds no `$`, and no `%` followed by `s`. */
  lemma {:induction false} WellEncodedHasNoDollarOrPlaceholder(s: string)
    requires WellEncoded(s)
    ensures '$' !in s
    ensures forall j :: 0 <= j < |s| - 1 ==> !(s[j] == '%' && s[j + 1] == 's')
    decreases |s|
  {
    if s == [] {
    } else if IsUnreserved(s[0]) && WellEncoded(s[1..]) {
      WellEncodedHasNoDollarOrPlaceholder(s[1..]);
      assert s == [s[0]] + s[1..];
      forall j | 1 <= j < |s| - 1 ensures !(s[j] == '%' && s[j + 1] == 's') {
        assert s[j] == s[1..][j - 1] && s[j + 1] == s[1..][j];
      }
    } else {
      WellEncodedHasNoDollarOrPlaceholder(s[3..]);
      assert s == s[..3] + s[3..];
      forall j | 3 <= j < |s| - 1 ensures !(s[j] == '%' && s[j + 1] == 's') {
        assert s[j] == s[3..][j - 3] && s[j + 1] == s[3..][j - 2];
      }
    }
  }
}
