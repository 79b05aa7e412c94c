/** Bytes and text that more than one part of the server writes. */
module Texts {
  type byte = bv8

  const CRLF := "\r\n"

  /** The decimal numeral. */
  function Decimal(n: nat): string {
    if n < 10 then [('0' as int + n) as char] else Decimal(n / 10) + [('0' as int + n % 10) as char]
  }

  function Repeat<T>(x: T, n: nat): seq<T> {
    seq(n, _ => x)
  }
}
