/** The 32-bit integer operators of ECMAScript, on exact integers. */
module JsNumber {
  import opened Prelude

  function ToUint32(x: int): (u: nat)
    ensures u < 0x1_0000_0000
  {
    x % 0x1_0000_0000
  }

  function ToInt32(x: int): int {
    var u := ToUint32(x);
    if u >= 0x8000_0000 then u - 0x1_0000_0000 else u
  }

  function Pow2(k: nat): (p: nat)
    ensures p > 0
  {
    if k == 0 then 1 else 2 * Pow2(k - 1)
  }

  function BitAnd(x: nat, y: nat): nat {
    if x == 0 || y == 0 then 0 else 2 * BitAnd(x / 2, y / 2) + (if x % 2 == 1 && y % 2 == 1 then 1 else 0)
  }

  function BitOr(x: nat, y: nat): nat
    decreases x + y
  {
    if x == 0 && y == 0 then 0 else 2 * BitOr(x / 2, y / 2) + (if x % 2 == 1 || y % 2 == 1 then 1 else 0)
  }

  /** `x << k` */
  function ShiftLeft(x: int, k: nat): int {
    ToInt32(ToInt32(x) * Pow2(k))
  }

  /** `x >> k` keeps the sign. */
  function ShiftRight(x: int, k: nat): int {
    ToInt32(x) / Pow2(k)
  }

  /** `x >>> k` */
  function ShiftRightUnsigned(x: int, k: nat): int {
    ToUint32(x) / Pow2(k)
  }

  /** `x & y` */
  function And(x: int, y: int): int {
    ToInt32(BitAnd(ToUint32(x), ToUint32(y)))
  }

  /** `x | y` */
  function Or(x: int, y: int): int {
    ToInt32(BitOr(ToUint32(x), ToUint32(y)))
  }

  /** The low bits of a number, one at a time. */
  function LowBits(x: nat, k: nat): nat {
    if k == 0 then 0 else 2 * LowBits(x / 2, k - 1) + x % 2
  }

  lemma {:induction false} AndMask(x: nat, k: nat)
    ensures BitAnd(x, Pow2(k) - 1) == LowBits(x, k)
  {
    if x == 0 {
      LowBitsOfZero(k);
    } else if k > 0 {
      AndMask(x / 2, k - 1);
      BitAndStep(x, Pow2(k) - 1);
      hide BitAnd;
    }
  }

  lemma BitAndStep(x: nat, mask: nat)
    requires 0 < x && mask % 2 == 1
    ensures BitAnd(x, mask) == 2 * BitAnd(x / 2, mask / 2) + x % 2
  {
  }

  lemma {:induction false} LowBitsOfZero(k: nat)
    ensures LowBits(0, k) == 0
  {
    if k > 0 {
      LowBitsOfZero(k - 1);
    }
  }

  function Halved(x: nat, k: nat): nat {
    if k == 0 then x else Halved(x / 2, k - 1)
  }

  lemma {:induction false} LowBitsSplit(x: nat, k: nat)
    ensures x == Pow2(k) * Halved(x, k) + LowBits(x, k) && LowBits(x, k) < Pow2(k)
  {
    if k > 0 {
      LowBitsSplit(x / 2, k - 1);
      Doubled(x, Pow2(k - 1), Halved(x / 2, k - 1), LowBits(x / 2, k - 1), Pow2(k));
    }
  }

  lemma Doubled(x: nat, p: nat, q: nat, low: nat, twice: nat)
    requires x / 2 == p * q + low && twice == 2 * p
    ensures x == twice * q + (2 * low + x % 2)
  {
    assert twice * q == 2 * (p * q);
  }

  lemma LowEight(x: nat)
    ensures LowBits(x, 8) == x % 256
  {
    Powers();
    LowBitsSplit(x, 8);
    hide LowBits, Halved, Pow2;
    RemainderIs(x, 256, Halved(x, 8), LowBits(x, 8));
  }

  lemma {:induction false} OrZero(x: nat)
    ensures BitOr(x, 0) == x
  {
    if x > 0 {
      OrZero(x / 2);
    }
  }

  lemma {:induction false} OrDisjoint(x: nat, y: nat, k: nat, high: nat)
    requires y < Pow2(k) && high == Pow2(k) * x
    ensures BitOr(high, y) == high + y
  {
    if k == 0 {
      OrZero(x);
    } else {
      var half := Pow2(k - 1) * x;
      TwiceProduct(Pow2(k), Pow2(k - 1), x);
      OrDisjoint(x, y / 2, k - 1, half);
      OrStep(half, y);
      hide BitOr;
    }
  }

  lemma TwiceProduct(twice: nat, p: nat, x: nat)
    requires twice == 2 * p
    ensures twice * x == 2 * (p * x)
  {
  }

  lemma OrStep(half: nat, y: nat)
    ensures BitOr(2 * half, y) == 2 * BitOr(half, y / 2) + y % 2
  {
    assert 2 * half / 2 == half && 2 * half % 2 == 0;
  }

  lemma Powers()
    ensures Pow2(8) == 0x100 && Pow2(16) == 0x1_0000 && Pow2(24) == 0x100_0000 && Pow2(0) == 1
  {
    assert Pow2(4) == 16;
    assert Pow2(8) == 256;
    assert Pow2(12) == 4096;
    assert Pow2(16) == 65536;
    assert Pow2(20) == 1048576;
  }

  /** `(v >> k) & 0xff` picks a byte of `v`, whatever the sign of the shifted word. */
  lemma PickByte(v: nat, k: nat)
    requires k in {0, 8, 16}
    ensures And(ShiftRight(v, k), 0xff) == v / Pow2(k) % 256
  {
    Powers();
    var p := Pow2(k);
    LowByte(ShiftRight(v, k));
    hide And;
    var lost := v / 0x1_0000_0000 + (if v % 0x1_0000_0000 >= 0x8000_0000 then 1 else 0);
    assert ToInt32(v) == v - 0x1_0000_0000 * lost;
    hide ToInt32, ToUint32;
    ShiftedQuotient(v, ToInt32(v), p, 0x1_0000_0000 / p / 256, lost);
  }

  lemma LowByte(w: int)
    ensures And(w, 0xff) == w % 256
  {
    Powers();
    AndMask(ToUint32(w), 8);
    LowEight(ToUint32(w));
    WordLow(w);
    hide BitAnd, LowBits, Pow2, Halved;
    assert ToUint32(0xff) == 0xff;
    Small(w % 256);
    hide ToUint32, ToInt32;
  }

  lemma WordLow(w: int)
    ensures ToUint32(w) % 256 == w % 256
  {
    var t, u := w / 0x1_0000_0000, w % 0x1_0000_0000;
    assert w == 256 * (0x100_0000 * t + u / 256) + u % 256;
    RemainderIs(w, 256, 0x100_0000 * t + u / 256, u % 256);
  }

  /** Dropping multiples of the word does not change the low byte of the quotient. */
  lemma ShiftedQuotient(v: int, w: int, p: int, c: int, lost: int)
    requires 0 < p && w == v - p * (256 * c) * lost
    ensures w / p % 256 == v / p % 256
  {
    var q, r := v / p, v % p;
    var d := c * lost;
    assert p * (256 * c) * lost == p * (256 * d);
    assert v == p * q + r;
    assert w == p * (q - 256 * d) + r;
    RemainderIs(w, p, q - 256 * d, r);
    RemainderIs(q - 256 * d, 256, q / 256 - d, q % 256);
  }

  /** `v >>> 24` is the top byte of the low word. */
  lemma PickTopByte(v: nat)
    ensures ShiftRightUnsigned(v, 24) == v / 0x100_0000 % 256
  {
    Powers();
    var q, r := v / 0x1_0000_0000, v % 0x1_0000_0000;
    var a, b := r / 0x100_0000, r % 0x100_0000;
    assert v == 0x100_0000 * (256 * q + a) + b;
    RemainderIs(v, 0x100_0000, 256 * q + a, b);
  }

  lemma WordFits(x: nat)
    requires x < 0x1_0000_0000
    ensures ToUint32(x) == x
  {
  }

  lemma Small(x: nat)
    requires x < 0x8000_0000
    ensures ToInt32(x) == x && ToUint32(x) == x
  {
  }

  /** Shifting a small number left multiplies it; or-ing in smaller bits adds them. */
  lemma ShiftOr(x: nat, y: nat, k: nat, high: nat)
    requires k in {8, 16} && high == Pow2(k) * x && y < Pow2(k) && high + y < 0x8000_0000
    ensures ShiftLeft(x, k) == high && Or(high, y) == high + y
  {
    Powers();
    AtLeast(Pow2(k), x);
    hide ToInt32, ToUint32, BitOr, Pow2;
    Small(x);
    Small(high);
    Small(y);
    Small(high + y);
    OrDisjoint(x, y, k, high);
  }

  lemma AtLeast(p: nat, x: nat)
    requires 0 < p
    ensures x <= p * x
  {
  }

  /** `(b << 8) | c` and its three-byte form assemble bytes. */
  lemma JoinBytes(a: nat, b: nat, c: nat)
    requires a < 256 && b < 256 && c < 256
    ensures Or(ShiftLeft(b, 8), c) == b * 256 + c
    ensures Or(Or(ShiftLeft(a, 16), ShiftLeft(b, 8)), c) == a * 65536 + b * 256 + c
  {
    Powers();
    hide Or, ShiftLeft, Pow2;
    ShiftOr(b, c, 8, b * 256);
    ShiftOr(a, b * 256, 16, a * 65536);
    ShiftOr(a * 256 + b, c, 8, a * 65536 + b * 256);
  }
}
