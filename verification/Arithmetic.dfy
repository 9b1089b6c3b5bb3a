/** Integer arithmetic as Rust performs it. */
module Arithmetic {

  const U32_MAX: int := 0xFFFF_FFFF
  const U64_MAX: int := 0xFFFF_FFFF_FFFF_FFFF
  const I32_MIN: int := -0x8000_0000
  const I32_MAX: int := 0x7FFF_FFFF
  const I64_MAX: int := 0x7FFF_FFFF_FFFF_FFFF

  /** Signed division truncates toward zero. */
  function TruncDiv(a: int, b: int): int
    requires b > 0
  {
    if a >= 0 then a / b else -((-a) / b)
  }

  /** The value a 32-bit signed register holds after an unchecked operation. */
  function WrapI32(x: int): int {
    (x + 0x8000_0000) % 0x1_0000_0000 - 0x8000_0000
  }

  /** Shifting a negative dividend by `b - 1` turns truncation into the floor. */
  lemma TruncDivFloors(a: int, b: int)
    requires b > 0
    ensures TruncDiv(if a >= 0 then a else a - (b - 1), b) == a / b
  {
    if a < 0 {
      var q := a / b;
      var n := -(a - (b - 1));
      assert a == b * q + a % b;
      assert n == b * (-q) + (b - 1 - a % b);
      DivUnique(n, b, -q);
    }
  }

  lemma DivUnique(n: int, b: int, q: int)
    requires b > 0 && b * q <= n < b * q + b
    ensures n / b == q
  {
    var p := n / b;
    assert b * p <= n < b * p + b;
    BelowOne(b, p - q);
    BelowOne(b, q - p);
  }

  lemma BelowOne(b: int, x: int)
    requires b > 0 && b * x < b
    ensures x <= 0
  {
    if x >= 1 {
      AtLeastOne(b, x);
    }
  }

  lemma {:induction false} AtLeastOne(b: int, x: int)
    requires b > 0 && x >= 1
    ensures b * x >= b
    decreases x
  {
    if x > 1 {
      AtLeastOne(b, x - 1);
      assert b * x == b * (x - 1) + b;
    }
  }
}
