/** Unsigned 32-bit arithmetic as C++ performs it on `uint32_t`: every result
    is reduced modulo 2^32. Index expressions of the model are written with
    these operations so that a wrap-around would show up as a wrong index. */
module U32 {
  const Modulus: int := 0x1_0000_0000

  type u32 = x: int | 0 <= x < 0x1_0000_0000

  /** `a + b` on `uint32_t`: exact unless the sum reaches 2^32, then wrapped once. */
  function Add(a: u32, b: u32): (r: u32)
    ensures a + b < Modulus ==> r == a + b
    ensures Modulus <= a + b ==> r == a + b - Modulus
  {
    (a + b) % Modulus
  }

  /** `a - b` on `uint32_t`: exact when `b <= a`, otherwise it wraps to a huge value. */
  function Sub(a: u32, b: u32): (r: u32)
    ensures b <= a ==> r == a - b
    ensures a < b ==> r == a - b + Modulus && a < r
  {
    (a - b) % Modulus
  }

  /** `a * b` on `uint32_t`: exact while the product stays below 2^32. */
  function Mul(a: u32, b: u32): (r: u32)
    ensures a * b < Modulus ==> r == a * b
  {
    var product := a * b;
    assert 0 <= product;
    product % Modulus
  }

  /** `a / b` on `uint32_t`: truncating division, which cannot wrap. */
  function Div(a: u32, b: u32): (r: u32)
    requires b != 0
    ensures r * b <= a < r * b + b
  {
    a / b
  }
}
