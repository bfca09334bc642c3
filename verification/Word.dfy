/** Bytes and fixed-width counters of the C sources: unsigned 32-bit words wrap at 2^32, and a signed
    `int` wraps too, since the kernel is compiled with -fno-strict-overflow. */
module Word {

  type byte = b: int | 0 <= b < 256

  function Min(a: nat, b: nat): nat { if a <= b then a else b }

  /** x reduced to an unsigned 32-bit word. */
  function U32(x: nat): (w: nat)
    ensures w < 0x1_0000_0000
  {
    x % 0x1_0000_0000
  }

  /** x reduced to a signed 32-bit word. */
  function I32(x: int): (w: int)
    ensures -0x8000_0000 <= w < 0x8000_0000
    ensures -0x8000_0000 <= x < 0x8000_0000 ==> w == x
  {
    (x + 0x8000_0000) % 0x1_0000_0000 - 0x8000_0000
  }

  /** C remainder: truncates toward zero, so the sign follows the dividend. */
  function Rem(a: int, b: int): (r: int)
    requires b > 0
    ensures a >= 0 ==> r == a % b
    ensures a < 0 ==> -b < r <= 0
  {
    if a >= 0 then a % b else -((-a) % b)
  }

  /** Incrementing a wrapped counter is wrapping the incremented count. */
  lemma U32Step(x: nat)
    ensures U32(U32(x) + 1) == U32(x + 1)
  {
    var q, r := x / 0x1_0000_0000, x % 0x1_0000_0000;
    assert x + 1 == 0x1_0000_0000 * q + (r + 1);
  }

  lemma I32Step(x: int)
    ensures I32(I32(x) + 1) == I32(x + 1)
  {
    var y := x + 0x8000_0000;
    var q, r := y / 0x1_0000_0000, y % 0x1_0000_0000;
    assert y + 1 == 0x1_0000_0000 * q + (r + 1);
  }

  lemma U32Sum(a: nat, b: nat)
    ensures U32(a + U32(b)) == U32(a + b)
  {
    var q := b / 0x1_0000_0000;
    assert a + b == (a + U32(b)) + 0x1_0000_0000 * q;
  }
}
