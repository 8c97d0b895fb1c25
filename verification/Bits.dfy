/** The bitwise operators of unsigned 64-bit words, on natural numbers. */
module Bits {
  import opened Powers

  type Word = x: int | 0 <= x < 0x1_0000_0000_0000_0000

  type BitOp = (bool, bool) -> bool

  function Bit(b: bool): (r: nat)
    ensures r <= 1
  {
    if b then 1 else 0
  }

  /** The operator applied to each of the n lowest bits. */
  function Bitwise(op: BitOp, a: nat, b: nat, n: nat): (r: nat)
    ensures r < Pow2(n)
  {
    if n == 0 then 0 else 2 * Bitwise(op, a / 2, b / 2, n - 1) + Bit(op(a % 2 == 1, b % 2 == 1))
  }

  const Conjunct: BitOp := (x, y) => x && y
  const Disjunct: BitOp := (x, y) => x || y

  function And(a: Word, b: Word): Word { PowSixtyFour(); Bitwise(Conjunct, a, b, 64) }

  function Or(a: Word, b: Word): Word { PowSixtyFour(); Bitwise(Disjunct, a, b, 64) }

  /** The powers that the masks are made of. */
  lemma Widths()
    ensures Pow2(2) == 4 && Pow2(4) == 16 && Pow2(12) == 0x1000 && Pow2(16) == 0x1_0000
    ensures Pow2(48) == 0x1_0000_0000_0000 && Pow2(62) == 0x4000_0000_0000_0000
  {
    assert Pow2(2) == 4 && Pow2(4) == 16;
    hide Pow2;
    PowAdd(4, 4);
    PowAdd(8, 4);
    PowAdd(12, 4);
    PowAdd(16, 16);
    PowAdd(32, 16);
    PowAdd(12, 2);
    PowAdd(48, 14);
  }

  lemma PowSixtyFour()
    ensures Pow2(64) == 0x1_0000_0000_0000_0000
  {
    Widths();
    assert Pow2(64) == 2 * (2 * Pow2(62));
  }

  lemma LowestBit(op: BitOp, x: nat, y: nat, u: nat, v: nat, n: nat)
    requires u <= 1 && v <= 1
    ensures Bitwise(op, 2 * x + u, 2 * y + v, n + 1) == 2 * Bitwise(op, x, y, n) + Bit(op(u == 1, v == 1))
  {
  }

  /** A number from its bits above the lowest k and those k bits. */
  function Join(high: nat, k: nat, low: nat): nat { high * Pow2(k) + low }

  lemma JoinHalves(high: nat, k: nat, low: nat)
    requires k > 0
    ensures Join(high, k, low) == 2 * Join(high, k - 1, low / 2) + low % 2
  {
    var p := Pow2(k - 1);
    assert high * (2 * p) == 2 * (high * p);
  }

  /** The low k bits and those above them are independent. */
  lemma {:induction false} BitwiseSplit(op: BitOp, a: nat, b: nat, c: nat, d: nat, n: nat, k: nat)
    requires c < Pow2(k) && d < Pow2(k)
    ensures Bitwise(op, Join(a, k, c), Join(b, k, d), n + k) == Join(Bitwise(op, a, b, n), k, Bitwise(op, c, d, k))
  {
    if k > 0 {
      BitwiseSplit(op, a, b, c / 2, d / 2, n, k - 1);
      hide Bitwise;
      hide Pow2;
      hide Join;
      JoinHalves(a, k, c);
      JoinHalves(b, k, d);
      LowestBit(op, Join(a, k - 1, c / 2), Join(b, k - 1, d / 2), c % 2, d % 2, n + k - 1);
      LowestBit(op, c / 2, d / 2, c % 2, d % 2, k - 1);
      JoinBit(Bitwise(op, a, b, n), k, Bitwise(op, c / 2, d / 2, k - 1), Bit(op(c % 2 == 1, d % 2 == 1)));
    }
  }

  lemma JoinBit(high: nat, k: nat, low: nat, bit: nat)
    requires k > 0 && bit <= 1
    ensures 2 * Join(high, k - 1, low) + bit == Join(high, k, 2 * low + bit)
  {
    JoinHalves(high, k, 2 * low + bit);
  }

  /** A mask of ones keeps the bits. */
  lemma {:induction false} AndOnes(x: nat, n: nat)
    requires x < Pow2(n)
    ensures Bitwise(Conjunct, x, Pow2(n) - 1, n) == x
  {
    if n > 0 {
      AndOnes(x / 2, n - 1);
      LowestBit(Conjunct, x / 2, Pow2(n - 1) - 1, x % 2, 1, n - 1);
      assert 2 * (Pow2(n - 1) - 1) + 1 == Pow2(n) - 1;
      hide Bitwise;
    }
  }

  /** A mask of zeros clears them. */
  lemma {:induction false} AndZeros(x: nat, n: nat)
    ensures Bitwise(Conjunct, x, 0, n) == 0
  {
    if n > 0 {
      AndZeros(x / 2, n - 1);
    }
  }

  lemma {:induction false} OrZeros(x: nat, n: nat)
    requires x < Pow2(n)
    ensures Bitwise(Disjunct, x, 0, n) == x && Bitwise(Disjunct, 0, x, n) == x
  {
    if n > 0 {
      OrZeros(x / 2, n - 1);
    }
  }
}
