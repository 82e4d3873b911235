/**
 * The `encodeURI` of ECMA-262 (section "URI Handling Functions"): every code
 * point outside the URI character set is written as the UTF-8 bytes of that
 * code point, each as `%` and two upper-case hexadecimal digits
 * (percent-encoding, section 2.1 of RFC 3986).
 *
 * A Dafny `char` is a Unicode scalar value, so the lone surrogates for which
 * `encodeURI` throws `URIError` cannot occur here.
 */
module Uri {
  import opened Common

  /** The characters `encodeURI` copies unchanged: uriAlpha, DecimalDigit, uriMark, uriReserved and `#`. */
  predicate Unescaped(c: char)
  {
    || ('a' <= c <= 'z') || ('A' <= c <= 'Z') || ('0' <= c <= '9')
    || c in "-_.!~*'()"
    || c in ";/?:@&=+$,"
    || c == '#'
  }

  /** The UTF-8 encoding of one Unicode scalar value. */
  function Utf8Char(c: char): (r: seq<byte>)
    ensures 1 <= |r| <= 4
    ensures |r| == 1 <==> c as int < 0x80
    ensures |r| == 1 ==> r[0] as int == c as int
  {
    var cp := c as int;
    if cp < 0x80 then [cp as byte]
    else if cp < 0x800 then
      [(0xC0 + cp / 0x40) as byte, (0x80 + cp % 0x40) as byte]
    else if cp < 0x1_0000 then
      [(0xE0 + cp / 0x1000) as byte, (0x80 + cp / 0x40 % 0x40) as byte, (0x80 + cp % 0x40) as byte]
    else
      [(0xF0 + cp / 0x4_0000) as byte, (0x80 + cp / 0x1000 % 0x40) as byte,
       (0x80 + cp / 0x40 % 0x40) as byte, (0x80 + cp % 0x40) as byte]
  }

  /** The UTF-8 encoding of a string. */
  function Utf8(s: string): seq<byte>
  {
    if s == [] then [] else Utf8Char(s[0]) + Utf8(s[1..])
  }

  /** One byte as `%HH`. */
  function PercentByte(b: byte): (r: string)
    ensures |r| == 3 && r[0] == '%'
  {
    ['%', HexDigit(b as int / 16, true), HexDigit(b as int % 16, true)]
  }

  function PercentBytes(bs: seq<byte>): (r: string)
    ensures |r| == 3 * |bs|
  {
    if bs == [] then [] else PercentByte(bs[0]) + PercentBytes(bs[1..])
  }

  function EncodeChar(c: char): string
  {
    if Unescaped(c) then [c] else PercentBytes(Utf8Char(c))
  }

  /** A character that can appear in the output of `encodeURI`. */
  predicate UriChar(c: char)
  {
    Unescaped(c) || c == '%' || IsHex(c)
  }

  /** `encodeURI(s)`. */
  function EncodeURI(s: string): (r: string)
    ensures |r| >= |s|
    ensures forall i :: 0 <= i < |r| ==> UriChar(r[i])
    ensures ' ' !in r
  {
    if s == [] then [] else
      var head := EncodeChar(s[0]);
      var tail := EncodeURI(s[1..]);
      EncodeCharUriChars(s[0]);
      UriCharsConcat(head, tail);
      head + tail
  }

  lemma EncodeCharUriChars(c: char)
    ensures |EncodeChar(c)| >= 1
    ensures forall i :: 0 <= i < |EncodeChar(c)| ==> UriChar(EncodeChar(c)[i])
  {
    if !Unescaped(c) {
      PercentBytesAreUriChars(Utf8Char(c));
    }
  }

  lemma UriCharsConcat(a: string, b: string)
    requires forall i :: 0 <= i < |a| ==> UriChar(a[i])
    requires forall i :: 0 <= i < |b| ==> UriChar(b[i])
    ensures forall i :: 0 <= i < |a + b| ==> UriChar((a + b)[i])
  {
    forall i | 0 <= i < |a + b|
      ensures UriChar((a + b)[i])
    {
      if i < |a| {
        assert (a + b)[i] == a[i];
      } else {
        assert (a + b)[i] == b[i - |a|];
      }
    }
  }

  lemma {:induction false} PercentBytesAreUriChars(bs: seq<byte>)
    ensures forall i :: 0 <= i < |PercentBytes(bs)| ==> UriChar(PercentBytes(bs)[i])
  {
    if bs != [] {
      PercentBytesAreUriChars(bs[1..]);
      var p := PercentByte(bs[0]);
      assert PercentBytes(bs) == p + PercentBytes(bs[1..]);
      assert UriChar(p[0]) && UriChar(p[1]) && UriChar(p[2]);
    }
  }

  // ----- Partner: undoing the percent-encoding, byte by byte -----

  function Prepend(x: seq<byte>, o: Option<seq<byte>>): Option<seq<byte>>
  {
    match o
    case None => None
    case Some(rest) => Some(x + rest)
  }

  /**
   * Reads an encoded URI back to bytes: `%HH` gives the byte `HH`, any other
   * ASCII character gives its own code; a stray `%` or a non-ASCII character
   * is malformed.
   */
  function Unescape(t: string): Option<seq<byte>>
  {
    if t == [] then Some([])
    else if t[0] == '%' then
      if |t| >= 3 && IsHex(t[1]) && IsHex(t[2]) then
        Prepend([(HexValue(t[1]) * 16 + HexValue(t[2])) as byte], Unescape(t[3..]))
      else None
    else if t[0] as int < 0x80 then
      Prepend([t[0] as int as byte], Unescape(t[1..]))
    else None
  }

  lemma UnescapePercentByte(b: byte, t: string)
    ensures Unescape(PercentByte(b) + t) == Prepend([b], Unescape(t))
  {
    var u := PercentByte(b) + t;
    assert u[3..] == t;
    assert (HexValue(u[1]) * 16 + HexValue(u[2])) as byte == b;
  }

  lemma {:induction false} UnescapePercentBytes(bs: seq<byte>, t: string)
    ensures Unescape(PercentBytes(bs) + t) == Prepend(bs, Unescape(t))
  {
    if bs == [] {
      assert PercentBytes(bs) + t == t;
      match Unescape(t) {
        case None =>
        case Some(rest) => assert bs + rest == rest;
      }
    } else {
      assert PercentBytes(bs) + t == PercentByte(bs[0]) + (PercentBytes(bs[1..]) + t);
      UnescapePercentByte(bs[0], PercentBytes(bs[1..]) + t);
      UnescapePercentBytes(bs[1..], t);
      match Unescape(t) {
        case None =>
        case Some(rest) => assert [bs[0]] + (bs[1..] + rest) == bs + rest;
      }
    }
  }

  lemma UnescapeEncodedChar(c: char, t: string)
    ensures Unescape(EncodeChar(c) + t) == Prepend(Utf8Char(c), Unescape(t))
  {
    if Unescaped(c) {
      assert ([c] + t)[1..] == t;
    } else {
      UnescapePercentBytes(Utf8Char(c), t);
    }
  }

  /** Round trip: undoing the percent-encoding of `encodeURI(s)` gives exactly the UTF-8 bytes of `s`. */
  lemma {:induction false} UnescapeEncodeURI(s: string)
    ensures Unescape(EncodeURI(s)) == Some(Utf8(s))
  {
    if s == [] {
    } else {
      UnescapeEncodedChar(s[0], EncodeURI(s[1..]));
      UnescapeEncodeURI(s[1..]);
    }
  }

  /** `encodeURI` leaves a string unchanged exactly when every character is in the URI character set. */
  lemma {:induction false} EncodeURIIdentity(s: string)
    ensures EncodeURI(s) == s <==> forall i :: 0 <= i < |s| ==> Unescaped(s[i])
  {
    if s != [] {
      EncodeURIIdentity(s[1..]);
      if Unescaped(s[0]) {
        var tail := s[1..];
        assert EncodeURI(s) == [s[0]] + EncodeURI(tail);
        assert s == [s[0]] + tail;
        assert EncodeURI(s) == s <==> EncodeURI(tail) == tail;
        assert (forall i :: 0 <= i < |s| ==> Unescaped(s[i])) <==> (forall i :: 0 <= i < |tail| ==> Unescaped(tail[i])) by {
          assert forall i :: 1 <= i < |s| ==> s[i] == tail[i - 1];
        }
      } else {
        assert |EncodeChar(s[0])| >= 3;
        assert |EncodeURI(s)| > |s|;
      }
    }
  }
}
