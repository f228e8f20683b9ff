/**
 Fixed-width words.  Machine words are integers with an explicit range, and every
 wrap-around of the emulator's `uint32_t` arithmetic is written out with `Wrap`.
 */
module Words {
  const TWO32: int := 0x1_0000_0000
  const TWO64: int := 0x1_0000_0000_0000_0000

  type u32 = x: int | 0 <= x < 0x1_0000_0000

  // Reduction modulo 2^32, the result of any `uint32_t` expression.
  function Wrap(x: int): u32 {
    x % 0x1_0000_0000
  }

  // The value of a word read as a two's-complement `int32_t`.
  function Signed(x: u32): int {
    if x < 0x8000_0000 then x else x - 0x1_0000_0000
  }

  function Pow2(n: nat): (p: nat)
    ensures p > 0
  {
    if n == 0 then 1 else 2 * Pow2(n - 1)
  }

  datatype BitOp = And | Or | Xor

  function OneBit(op: BitOp, a: int, b: int): (r: int)
    ensures 0 <= r <= 1
  {
    match op
    case And => if a == 1 && b == 1 then 1 else 0
    case Or => if a == 1 || b == 1 then 1 else 0
    case Xor => if a == b then 0 else 1
  }

  // The bitwise operation on the low `n` bits.
  function Bitwise(op: BitOp, a: nat, b: nat, n: nat): (r: nat)
    ensures r < Pow2(n)
  {
    if n == 0 then 0
    else OneBit(op, a % 2, b % 2) + 2 * Bitwise(op, a / 2, b / 2, n - 1)
  }

  function Bitwise32(op: BitOp, a: u32, b: u32): u32 {
    Pow2Literals();
    Bitwise(op, a, b, 32)
  }

  // Bit `i` of a word.
  function BitAt(a: nat, i: nat): nat {
    a / Pow2(i) % 2
  }

  lemma {:induction false} BitwiseBit(op: BitOp, a: nat, b: nat, n: nat, i: nat)
    requires i < n
    ensures BitAt(Bitwise(op, a, b, n), i) == OneBit(op, BitAt(a, i), BitAt(b, i))
  {
    var low, rest := OneBit(op, a % 2, b % 2), Bitwise(op, a / 2, b / 2, n - 1);
    if i == 0 {
      assert (low + 2 * rest) % 2 == low;
    } else {
      assert (low + 2 * rest) / 2 == rest;
      BitwiseBit(op, a / 2, b / 2, n - 1, i - 1);
      HigherBit(a, i);
      HigherBit(b, i);
      HigherBit(low + 2 * rest, i);
    }
  }

  lemma HigherBit(a: nat, i: nat)
    requires i > 0
    ensures BitAt(a, i) == BitAt(a / 2, i - 1)
  {
    var p := Pow2(i - 1);
    var q, r := a / 2 / p, a / 2 % p;
    assert a == q * (2 * p) + (2 * r + a % 2) by {
      assert q * (2 * p) == 2 * (q * p);
    }
    ModUnique(a, 2 * p, q, 2 * r + a % 2);
  }

  /** Every bit of a conjunction, disjunction or exclusive or is that of the two bits at its place. */
  lemma BitwiseIsBitByBit(a: u32, b: u32, i: nat)
    requires i < 32
    ensures Bitwise32(And, a, b) / Pow2(i) % 2 == 1 <==> a / Pow2(i) % 2 == 1 && b / Pow2(i) % 2 == 1
    ensures Bitwise32(Or, a, b) / Pow2(i) % 2 == 1 <==> a / Pow2(i) % 2 == 1 || b / Pow2(i) % 2 == 1
    ensures Bitwise32(Xor, a, b) / Pow2(i) % 2 == 1 <==> a / Pow2(i) % 2 != b / Pow2(i) % 2
  {
    hide Bitwise, Pow2;
    BitwiseBit(And, a, b, 32, i);
    BitwiseBit(Or, a, b, 32, i);
    BitwiseBit(Xor, a, b, 32, i);
  }

  /** And its 32 bits make a word. */
  lemma {:induction false} BitsDetermine(a: nat, b: nat, n: nat)
    requires a < Pow2(n) && b < Pow2(n) && forall i: nat :: i < n ==> BitAt(a, i) == BitAt(b, i)
    ensures a == b
  {
    if n > 0 {
      assert BitAt(a, 0) == BitAt(b, 0) && Pow2(0) == 1;
      forall i: nat | i < n - 1
        ensures BitAt(a / 2, i) == BitAt(b / 2, i)
      {
        HigherBit(a, i + 1);
        HigherBit(b, i + 1);
      }
      BitsDetermine(a / 2, b / 2, n - 1);
    }
  }

  lemma {:induction false} BitwiseCommutes(op: BitOp, a: nat, b: nat, n: nat)
    ensures Bitwise(op, a, b, n) == Bitwise(op, b, a, n)
  {
    if n > 0 { BitwiseCommutes(op, a / 2, b / 2, n - 1); }
  }

  lemma {:induction false} AndZero(a: nat, n: nat)
    ensures Bitwise(And, a, 0, n) == 0
  {
    if n > 0 { AndZero(a / 2, n - 1); }
  }

  lemma {:induction false} AndOnes(a: nat, k: nat, n: nat)
    requires k <= n
    ensures Bitwise(And, a, Pow2(k) - 1, n) == a % Pow2(k)
  {
    if k == 0 {
      AndZero(a, n);
    } else {
      var p := Pow2(k - 1);
      HalfOfOnes(p);
      calc {
        Bitwise(And, a, 2 * p - 1, n);
        OneBit(And, a % 2, 1) + 2 * Bitwise(And, a / 2, p - 1, n - 1);
        { AndOnes(a / 2, k - 1, n - 1); }
        a % 2 + 2 * (a / 2 % p);
        { ModTwice(a, p); }
        a % (2 * p);
      }
    }
  }

  lemma HalfOfOnes(p: nat)
    requires p > 0
    ensures (2 * p - 1) / 2 == p - 1 && (2 * p - 1) % 2 == 1
  {
  }

  lemma ModTwice(a: nat, p: nat)
    requires p > 0
    ensures a % (2 * p) == a % 2 + 2 * (a / 2 % p)
  {
    var q := a / 2 / p;
    assert a == 2 * (q * p + a / 2 % p) + a % 2;
    var r := a % 2 + 2 * (a / 2 % p);
    assert a == q * (2 * p) + r by {
      assert 2 * (q * p) == q * (2 * p);
    }
    assert 0 <= r < 2 * p;
    ModUnique(a, 2 * p, q, r);
  }

  lemma ModUnique(a: int, d: int, q: int, r: int)
    requires d > 0 && 0 <= r < d && a == q * d + r
    ensures a / d == q && a % d == r
  {
    var q', r' := a / d, a % d;
    assert a == q' * d + r';
    if q' < q {
      MulMonotone(q' + 1, q, d);
      assert false;
    } else if q < q' {
      MulMonotone(q + 1, q', d);
      assert false;
    }
  }

  lemma MulMonotone(x: int, y: int, d: int)
    requires x <= y && d >= 0
    ensures x * d <= y * d
    ensures x * d == (x - 1) * d + d
  {
    assert y * d - x * d == (y - x) * d;
    assert (y - x) * d >= 0;
  }

  lemma Pow2Literals()
    ensures Pow2(1) == 2 && Pow2(2) == 4 && Pow2(5) == 32 && Pow2(12) == 0x1000 && Pow2(32) == 0x1_0000_0000
  {
    assert Pow2(4) == 16 && Pow2(8) == 0x100 && Pow2(12) == 0x1000;
    assert Pow2(16) == 0x1_0000 && Pow2(20) == 0x10_0000 && Pow2(24) == 0x100_0000;
    assert Pow2(28) == 0x1000_0000;
  }

  datatype Option<+T> = None | Some(value: T)
}
