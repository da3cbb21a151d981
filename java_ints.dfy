/**
 * The java.lang integer semantics the core relies on: the narrowing cast
 * from long to int, which keeps the low 32 bits, and integer division,
 * which truncates toward zero.
 */
module JavaInts {
  const IntMin: int := -0x8000_0000
  const IntMax: int := 0x7fff_ffff

  predicate InInt(x: int) {
    IntMin <= x <= IntMax
  }

  /** `(int) x` for a long x: the two's-complement value of its low 32 bits. */
  function ToInt(x: int): (r: int)
    ensures InInt(r)
    ensures (r - x) % 0x1_0000_0000 == 0
    ensures InInt(x) ==> r == x
  {
    (x - IntMin) % 0x1_0000_0000 + IntMin
  }

  /** Java's `/`, which rounds toward zero where Dafny's rounds down. */
  function JavaDiv(a: int, b: int): (r: int)
    requires b > 0
    ensures a >= 0 ==> r * b <= a < r * b + b
    ensures a < 0 ==> r * b - b < a <= r * b
  {
    if a >= 0 then a / b else -((-a) / b)
  }
}
