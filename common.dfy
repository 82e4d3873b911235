/** Shared value types: optional values, results, bytes. */
module Common {

  /** A byte of a fetched buffer (a Node.js `Buffer` element). */
  newtype byte = x: int | 0 <= x < 0x100

  datatype Option<+T> = None | Some(value: T)

  datatype Result<+T, +E> = Ok(value: T) | Err(error: E)

  /** JavaScript truthiness of an optional string: `undefined` and `""` are falsy. */
  predicate Truthy(s: Option<string>)
  {
    s.Some? && s.value != ""
  }

  /** The string JavaScript produces when an optional string is concatenated. */
  function JsConcatForm(s: Option<string>): string
  {
    match s
    case Some(v) => v
    case None => "undefined"
  }

  /** A hexadecimal digit of either case. */
  predicate IsHex(c: char)
  {
    ('0' <= c <= '9') || ('A' <= c <= 'F') || ('a' <= c <= 'f')
  }

  function HexValue(c: char): (n: nat)
    requires IsHex(c)
    ensures n < 16
  {
    if '0' <= c <= '9' then c as int - '0' as int
    else if 'A' <= c <= 'F' then c as int - 'A' as int + 10
    else c as int - 'a' as int + 10
  }

  /**
   * The hexadecimal digit of a value below 16, upper-case (as `encodeURI`
   * writes it) or lower-case (as `JSON.stringify` writes it).
   */
  function HexDigit(n: nat, upper: bool): (c: char)
    requires n < 16
    ensures IsHex(c) && HexValue(c) == n
  {
    if n < 10 then ('0' as int + n) as char
    else if upper then ('A' as int + n - 10) as char
    else ('a' as int + n - 10) as char
  }
}
