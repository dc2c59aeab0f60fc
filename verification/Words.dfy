// 64-bit machine words: wrapping two's complement arithmetic, bitwise
// operations defined bit by bit, and the tag bits the px64 VM reads.

module Words {

  const TWO_64: int := 0x1_0000_0000_0000_0000
  const TWO_63: int := 0x8000_0000_0000_0000

  type u8 = b: int | 0 <= b < 256

  type i64 = x: int | -0x8000_0000_0000_0000 <= x < 0x8000_0000_0000_0000

  /** The word that is congruent to x modulo 2^64. */
  function Wrap(x: int): (w: i64)
    ensures -TWO_63 <= x < TWO_63 ==> w == x
  {
    (x + TWO_63) % TWO_64 - TWO_63
  }

  /** The same 64 bits read as an unsigned number. */
  function Unsigned(w: i64): (u: int)
    ensures 0 <= u < TWO_64
  {
    if w < 0 then w + TWO_64 else w
  }

  function Pow2(n: nat): (p: nat)
    ensures p > 0
  {
    if n == 0 then 1 else 2 * Pow2(n - 1)
  }

  predicate Bit(u: nat, i: nat) {
    if i == 0 then u % 2 == 1 else Bit(u / 2, i - 1)
  }

  datatype BitOp = BitAnd | BitOr | BitXor

  function OneBit(o: BitOp, a: bool, b: bool): bool {
    match o
    case BitAnd => a && b
    case BitOr => a || b
    case BitXor => a != b
  }

  /** The low n bits of `a o b`. */
  function Bitwise(o: BitOp, a: nat, b: nat, n: nat): nat {
    if n == 0 then 0
    else
      2 * Bitwise(o, a / 2, b / 2, n - 1) + if OneBit(o, a % 2 == 1, b % 2 == 1) then 1 else 0
  }

  function Logic(o: BitOp, x: i64, y: i64): i64 {
    Wrap(Bitwise(o, Unsigned(x), Unsigned(y), 64))
  }

  /** Division rounding toward zero, as Rust's `wrapping_div`. */
  function QuotTowardZero(x: int, y: int): int
    requires y != 0
  {
    if x >= 0 then (if y > 0 then x / y else -(x / -y))
    else (if y > 0 then -(-x / y) else -x / -y)
  }

  /** Remainder with the sign of the dividend, as Rust's `wrapping_rem`. */
  function RemTowardZero(x: int, y: int): int
    requires y != 0
  {
    var d := if y > 0 then y else -y;
    if x >= 0 then x % d else -(-x % d)
  }

  // ---- tags (bits 62, 61 and 60) ------------------------------------------

  const ERR_TAG: i64 := 0x1000_0000_0000_0000
  const ARG_TAG: i64 := 0x2000_0000_0000_0000
  const STR_TAG: i64 := 0x4000_0000_0000_0000

  /** `(w & tag) != 0` for a one-bit tag. */
  predicate Tagged(w: i64, tag: i64)
    requires tag > 0
  {
    Unsigned(w) / tag % 2 == 1
  }

  /** `w & !tag` */
  function ClearTag(w: i64, tag: i64): i64
    requires tag > 0
  {
    if Tagged(w, tag) then Wrap(Unsigned(w) - tag) else w
  }

  /** `w | tag` */
  function SetTag(w: i64, tag: i64): i64
    requires tag > 0
  {
    if Tagged(w, tag) then w else Wrap(Unsigned(w) + tag)
  }
}
