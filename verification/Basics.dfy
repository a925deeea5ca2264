/** What the modules on files, links and patterns share. */
module Basics {

  type byte = x: int | 0 <= x < 256

  function Min(a: int, b: int): int { if a <= b then a else b }

  /** A number in decimal digits, as printf writes it. */
  function Numeral(n: nat): (r: seq<byte>)
    ensures r != [] && forall i :: 0 <= i < |r| ==> 48 <= r[i] <= 57
  {
    if n < 10 then [48 + n] else Numeral(n / 10) + [48 + n % 10]
  }
}
