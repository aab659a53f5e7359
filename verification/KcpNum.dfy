/** The integer arithmetic of ikcp.c. */
module KcpNum {
  const W := 0x1_0000_0000

  type pos = x: int | x > 0 witness 1

  /** Conversion to IUINT32. */
  function U32(x: int): (u: nat)
    ensures u < W
  {
    x % W
  }

  /** Conversion to IINT32. */
  function I32(x: int): (i: int)
    ensures -0x8000_0000 <= i < 0x8000_0000
  {
    var u := x % W;
    if u >= 0x8000_0000 then u - W else u
  }

  function Mul32(a: nat, b: nat): nat { U32(a * b) }

  function Div32(a: nat, b: nat): nat
    requires b > 0
  {
    a / b
  }

  /** _itimediff; without wrap-around it is plain subtraction. */
  function Diff(wrap: bool, later: int, earlier: int): int {
    if wrap then I32(later - earlier) else later - earlier
  }

  function Add(wrap: bool, a: nat, n: nat): nat {
    if wrap then U32(a + n) else a + n
  }

  function IMin(a: nat, b: nat): nat { if a <= b then a else b }

  function IMax(a: nat, b: nat): nat { if a >= b then a else b }

  /** C division: truncation toward zero. */
  function Quot(a: int, b: int): int
    requires b > 0
  {
    if a >= 0 then a / b else -(-a / b)
  }
}
