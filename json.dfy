/**
 * `JSON.stringify` applied to a string (QuoteJSONString of ECMA-262): the
 * string between double quotes, with `"` and `\` escaped by a backslash,
 * the control characters backspace, tab, line feed, form feed and carriage
 * return written as `\b \t \n \f \r`, every other code point below U+0020
 * written as `\u00hh` with lower-case hexadecimal digits, and everything
 * else copied.
 */
module JsonString {
  import opened Common

  /** The escape of one character inside the quotes. */
  function EscapeChar(c: char): (r: string)
    ensures 1 <= |r| <= 6
    ensures forall i :: 0 <= i < |r| ==> r[i] >= ' '
    ensures |r| == 1 <==> (c >= ' ' && c != '"' && c != '\\')
    ensures r == [c] <==> (c >= ' ' && c != '"' && c != '\\')
    ensures r != [c] ==> r[0] == '\\'
  {
    if c == '\U{8}' then "\\b"
    else if c == '\t' then "\\t"
    else if c == '\n' then "\\n"
    else if c == '\U{C}' then "\\f"
    else if c == '\r' then "\\r"
    else if c == '"' then "\\\""
    else if c == '\\' then "\\\\"
    else if c < ' ' then ['\\', 'u', '0', '0', HexDigit(c as int / 16, false), HexDigit(c as int % 16, false)]
    else [c]
  }

  function EscapeBody(s: string): (r: string)
    ensures forall i :: 0 <= i < |r| ==> r[i] >= ' '
  {
    if s == [] then [] else EscapeChar(s[0]) + EscapeBody(s[1..])
  }

  /** `JSON.stringify(s)` for a string `s`. */
  function Quote(s: string): (r: string)
    ensures |r| >= 2 && r[0] == '"' && r[|r| - 1] == '"'
    ensures forall i :: 0 <= i < |r| ==> r[i] >= ' '
  {
    ['"'] + EscapeBody(s) + ['"']
  }

  // ----- Partner: reading a JSON string literal back -----

  function PrependChar(c: char, o: Option<string>): Option<string>
  {
    match o
    case None => None
    case Some(rest) => Some([c] + rest)
  }

  /** The value of the four hexadecimal digits of a `\uXXXX` escape, if it names a scalar value. */
  function CodePoint(a: char, b: char, c: char, d: char): Option<char>
    requires IsHex(a) && IsHex(b) && IsHex(c) && IsHex(d)
  {
    var v := ((HexValue(a) * 16 + HexValue(b)) * 16 + HexValue(c)) * 16 + HexValue(d);
    if v < 0xD800 || 0xE000 <= v then Some(v as char) else None
  }

  /** The characters denoted by the inside of a JSON string literal; `None` when it is malformed. */
  function UnescapeBody(t: string): Option<string>
  {
    if t == [] then Some([])
    else if t[0] == '"' || t[0] < ' ' then None
    else if t[0] != '\\' then PrependChar(t[0], UnescapeBody(t[1..]))
    else if |t| < 2 then None
    else
      var e := t[1];
      if e == 'u' then
        if |t| >= 6 && IsHex(t[2]) && IsHex(t[3]) && IsHex(t[4]) && IsHex(t[5]) then
          match CodePoint(t[2], t[3], t[4], t[5])
          case None => None
          case Some(c) => PrependChar(c, UnescapeBody(t[6..]))
        else None
      else
        var c :=
          if e == 'b' then Some('\U{8}')
          else if e == 't' then Some('\t')
          else if e == 'n' then Some('\n')
          else if e == 'f' then Some('\U{C}')
          else if e == 'r' then Some('\r')
          else if e == '"' || e == '\\' || e == '/' then Some(e)
          else None;
        match c
        case None => None
        case Some(c) => PrependChar(c, UnescapeBody(t[2..]))
  }

  /** The string a JSON string literal denotes; `None` when it is not one. */
  function Unquote(t: string): Option<string>
  {
    if |t| >= 2 && t[0] == '"' && t[|t| - 1] == '"' then UnescapeBody(t[1..|t| - 1]) else None
  }

  lemma UnescapeEscapedChar(c: char, t: string)
    ensures UnescapeBody(EscapeChar(c) + t) == PrependChar(c, UnescapeBody(t))
  {
    var u := EscapeChar(c) + t;
    if |EscapeChar(c)| == 1 {
      assert u[1..] == t;
    } else if |EscapeChar(c)| == 2 {
      assert u[2..] == t;
    } else {
      assert u[6..] == t;
      assert c as int == ((HexValue(u[2]) * 16 + HexValue(u[3])) * 16 + HexValue(u[4])) * 16 + HexValue(u[5]);
    }
  }

  lemma {:induction false} UnescapeEscapeBody(s: string)
    ensures UnescapeBody(EscapeBody(s)) == Some(s)
  {
    if s != [] {
      UnescapeEscapedChar(s[0], EscapeBody(s[1..]));
      UnescapeEscapeBody(s[1..]);
      assert [s[0]] + s[1..] == s;
    }
  }

  /** Round trip: the quoted literal denotes exactly the original string. */
  lemma QuoteUnquote(s: string)
    ensures Unquote(Quote(s)) == Some(s)
  {
    var r := Quote(s);
    assert r[1..|r| - 1] == EscapeBody(s);
    UnescapeEscapeBody(s);
  }
}
