/** Quotient and remainder by the fixed divisors the byte codecs use: `x == q * d + r` with
    `0 <= r < d` gives `x / d == q` and `x % d == r`. */
module Arith {

  lemma DivMod3(x: int, q: int, r: int)
    requires 0 <= r < 3 && x == q * 3 + r
    ensures x / 3 == q && x % 3 == r
  {
  }

  lemma DivMod4(x: int, q: int, r: int)
    requires 0 <= r < 4 && x == q * 4 + r
    ensures x / 4 == q && x % 4 == r
  {
  }

  lemma DivMod16(x: int, q: int, r: int)
    requires 0 <= r < 16 && x == q * 16 + r
    ensures x / 16 == q && x % 16 == r
  {
  }

  lemma DivMod64(x: int, q: int, r: int)
    requires 0 <= r < 64 && x == q * 64 + r
    ensures x / 64 == q && x % 64 == r
  {
  }

  lemma DivMod4096(x: int, q: int, r: int)
    requires 0 <= r < 4096 && x == q * 4096 + r
    ensures x / 4096 == q && x % 4096 == r
  {
  }

  lemma DivMod262144(x: int, q: int, r: int)
    requires 0 <= r < 262144 && x == q * 262144 + r
    ensures x / 262144 == q && x % 262144 == r
  {
  }
}
