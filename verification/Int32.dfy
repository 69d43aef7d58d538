/** JavaScript's 32-bit operators on integers, bit by bit, and what they are in plain arithmetic. */
module Int32 {
  const TWO31: int := 0x8000_0000
  const TWO32: int := 0x1_0000_0000

  const BITS: nat := 32

  function ToUint32(x: int): nat {
    x % TWO32
  }

  function ToInt32(x: int): int {
    if ToUint32(x) >= TWO31 then ToUint32(x) - TWO32 else ToUint32(x)
  }

  function Pow2(n: nat): (r: nat)
    ensures r > 0
  {
    if n == 0 then 1 else 2 * Pow2(n - 1)
  }

  /** The `n` low bits of a bitwise and. */
  function AndBits(x: nat, y: nat, n: nat): nat {
    if n == 0 then 0 else 2 * AndBits(x / 2, y / 2, n - 1) + if x % 2 == 1 && y % 2 == 1 then 1 else 0
  }

  function OrBits(x: nat, y: nat, n: nat): nat {
    if n == 0 then 0 else 2 * OrBits(x / 2, y / 2, n - 1) + if x % 2 == 1 || y % 2 == 1 then 1 else 0
  }

  /** `x & y` */
  function And(x: int, y: int): int {
    ToInt32(AndBits(ToUint32(x), ToUint32(y), BITS))
  }

  /** `x | y` */
  function Or(x: int, y: int): int {
    ToInt32(OrBits(ToUint32(x), ToUint32(y), BITS))
  }

  /** `x << n`: only the low five bits of the count are used. */
  function Shl(x: int, n: nat): int {
    ToInt32(x * Pow2(n % 32))
  }

  /** `x >> n` */
  function Shr(x: int, n: nat): int {
    ToInt32(x) / Pow2(n % 32)
  }

  lemma DivUnique(x: nat, d: nat, q: nat, r: nat)
    requires x == q * d + r && r < d
    ensures x / d == q && x % d == r
  {
    var c := x / d;
    Distribute(c, q, d);
    SmallMultiple(c - q, d);
  }

  lemma Distribute(c: int, q: int, d: int)
    ensures (c - q) * d == c * d - q * d
  { }

  lemma SmallMultiple(m: int, d: nat)
    requires -(d as int) < m * d < d
    ensures m == 0
  {
    if m > 0 {
      LeastMultiple(m, d);
    } else if m < 0 {
      assert -m * d == -(m * d);
      LeastMultiple(-m, d);
    }
  }

  lemma {:induction false} LeastMultiple(m: nat, d: nat)
    requires m > 0
    ensures m * d >= d
  {
    if m > 1 {
      LeastMultiple(m - 1, d);
      assert m * d == (m - 1) * d + d;
    }
  }

  lemma Halve(x: nat, k: nat)
    requires k > 0
    ensures x / Pow2(k) == x / 2 / Pow2(k - 1)
    ensures x % Pow2(k) == 2 * (x / 2 % Pow2(k - 1)) + x % 2
  {
    var p := Pow2(k - 1);
    var q, r := x / 2 / p, x / 2 % p;
    assert x / 2 == q * p + r;
    assert x == q * (2 * p) + (2 * r + x % 2);
    DivUnique(x, 2 * p, q, 2 * r + x % 2);
  }

  lemma {:induction false} AndOnes(x: nat, k: nat, n: nat)
    requires k <= n
    ensures AndBits(x, Pow2(k) - 1, n) == x % Pow2(k)
  {
    if k == 0 {
      AndZero(x, n);
    } else {
      var m := Pow2(k) - 1;
      assert m / 2 == Pow2(k - 1) - 1 && m % 2 == 1;
      AndOnes(x / 2, k - 1, n - 1);
      Halve(x, k);
    }
  }

  lemma {:induction false} AndZero(x: nat, n: nat)
    ensures AndBits(x, 0, n) == 0
  {
    if n > 0 { AndZero(x / 2, n - 1); }
  }

  lemma TwiceMultiple(q: nat, p: nat)
    ensures 2 * (q * p) == q * (2 * p)
  { }

  lemma AndEven(x: nat, m: nat, n: nat)
    requires n > 0 && m % 2 == 0
    ensures AndBits(x, m, n) == 2 * AndBits(x / 2, m / 2, n - 1)
  { }

  /** Masking off the low `k` bits. */
  lemma {:induction false} AndHigh(x: nat, k: nat, n: nat)
    requires k <= n && x < Pow2(n) && Pow2(k) <= Pow2(n)
    ensures AndBits(x, Pow2(n) - Pow2(k), n) == x / Pow2(k) * Pow2(k)
  {
    if k == 0 {
      AndOnes(x, n, n);
      DivUnique(x, Pow2(n), 0, x);
    } else {
      var m := Pow2(n) - Pow2(k);
      assert x / 2 < Pow2(n - 1);
      assert m / 2 == Pow2(n - 1) - Pow2(k - 1) && m % 2 == 0;
      AndEven(x, m, n);
      AndHigh(x / 2, k - 1, n - 1);
      Halve(x, k);
      var q, p := x / 2 / Pow2(k - 1), Pow2(k - 1);
      assert AndBits(x, m, n) == 2 * (q * p);
      TwiceMultiple(q, p);
      assert q * (2 * p) == x / Pow2(k) * Pow2(k);
    }
  }

  function Masked(x: nat, p: nat): int
    requires p > 0
  {
    x / p * p
  }

  lemma AndMasked(x: nat, k: nat, n: nat, m: nat)
    requires k <= n && x < Pow2(n) && Pow2(k) <= Pow2(n) && m == Pow2(n) - Pow2(k)
    ensures AndBits(x, m, n) == Masked(x, Pow2(k))
  {
    AndHigh(x, k, n);
  }

  lemma {:induction false} OrZero(y: nat, n: nat)
    requires y < Pow2(n)
    ensures OrBits(0, y, n) == y == OrBits(y, 0, n)
  {
    if n > 0 { OrZero(y / 2, n - 1); }
  }

  /** Or of numbers without a common bit is their sum. */
  lemma {:induction false} OrDisjoint(h: nat, k: nat, y: nat, n: nat)
    requires k <= n && y < Pow2(k) && h * Pow2(k) + y < Pow2(n)
    ensures OrBits(h * Pow2(k), y, n) == h * Pow2(k) + y
  {
    if k == 0 {
      OrZero(h, n);
    } else {
      var x := h * Pow2(k);
      assert x == 2 * (h * Pow2(k - 1));
      OrDisjoint(h, k - 1, y / 2, n - 1);
    }
  }

  lemma Powers()
    ensures Pow2(8) == 256 && Pow2(16) == 65536 && Pow2(32) == TWO32
  {
    assert Pow2(8) == 2 * Pow2(7) && Pow2(7) == 2 * Pow2(6) && Pow2(6) == 2 * Pow2(5) && Pow2(5) == 2 * Pow2(4);
    assert Pow2(4) == 16;
    PowAdds(8, 8);
    PowAdds(16, 16);
  }

  lemma {:induction false} PowAdds(a: nat, b: nat)
    ensures Pow2(a + b) == Pow2(a) * Pow2(b)
  {
    if a > 0 {
      PowAdds(a - 1, b);
      assert 2 * (Pow2(a - 1) * Pow2(b)) == Pow2(a) * Pow2(b);
    }
  }

  lemma SignedAndBack(x: nat)
    requires x < TWO32
    ensures ToUint32(ToInt32(x)) == x
  { }

  /** Appending an octet: `(x << 8) | n`. */
  lemma ShiftIn(x: nat, n: nat)
    requires x < 0x100_0000 && n < 256
    ensures Or(Shl(x, 8), n) == ToInt32(x * 256 + n)
  {
    var k, w := 8, BITS;
    Powers();
    ShortShift(x, k);
    SignedAndBack(x * 256);
    OrDisjoint(x, k, n, w);
    Unsigned(n);
  }

  lemma Small(v: nat)
    requires v < TWO31
    ensures ToUint32(v) == v == ToInt32(v)
  { }

  /** An and with `k` ones, as an operator. */
  lemma AndMask(x: nat, mask: nat, k: nat)
    requires mask == Pow2(k) - 1 && k < 31 && x < TWO31 && Pow2(k) < TWO31
    ensures And(x, mask) == x % Pow2(k)
  {
    AndOnes(x, k, BITS);
    Small(x);
    Small(mask);
    Small(AndBits(x, mask, BITS));
  }

  lemma HighOctet(x: nat)
    requires x < 65536
    ensures Shr(x, 8) == x / 256
  {
    Powers();
    Small(x);
  }

  lemma AndOctet(x: nat)
    requires x < 65536
    ensures And(x, 0xff) == x % 256
  {
    Powers();
    AndMask(x, 0xff, 8);
  }

  lemma OctetItself(x: nat)
    requires x < 256
    ensures x % 256 == x
  { }

  /** The high and the low octet of a 16-bit number. */
  lemma Octets(x: nat)
    requires x < 65536
    ensures And(Shr(x, 8), 0xff) == x / 256
    ensures And(x, 0xff) == x % 256
  {
    HighOctet(x);
    AndOctet(x);
    var high := Shr(x, 8);
    assert high == x / 256 && 0 <= high < 256;
    AndOctet(high);
    OctetItself(high);
  }

  lemma {:induction false} PowBelow(k: nat, n: nat)
    requires k < n
    ensures Pow2(k) < Pow2(n)
  {
    if k > 0 { PowBelow(k - 1, n - 1); }
  }

  lemma Negated(p: nat)
    requires 0 < p < TWO32
    ensures ToUint32(ToInt32(-1 * p)) == TWO32 - p
  {
    assert -1 * p == 0 - p;
  }

  lemma PowBelowWidth(k: nat, n: nat)
    requires k < n == BITS
    ensures Pow2(k) < Pow2(n) == TWO32
  {
    Powers();
    PowBelow(k, n);
  }

  lemma ShortShift(x: int, k: nat)
    requires k < 32
    ensures Shl(x, k) == ToInt32(x * Pow2(k))
  {
    assert k % 32 == k;
  }

  lemma MaskValue(k: nat)
    requires k < 32
    ensures ToUint32(Shl(-1, k)) == TWO32 - Pow2(k)
  {
    PowBelowWidth(k, BITS);
    ShortShift(-1, k);
    Negated(Pow2(k));
  }

  lemma Unsigned(x: nat)
    requires x < TWO32
    ensures ToUint32(x) == x
  { }

  /** The mask of a prefix, `(~0 << (32 - prefix)) >>> 0`, keeps the bits of the prefix. */
  lemma PrefixMask(x: nat, mask: nat, k: nat)
    requires x < TWO32 && k < 32 && mask == ToUint32(Shl(-1, k))
    ensures And(x, mask) == ToInt32(Masked(x, Pow2(k)))
  {
    var n := BITS;
    MaskValue(k);
    Unsigned(x);
    Unsigned(mask);
    PowBelowWidth(k, n);
    AndMasked(x, k, n, mask);
  }

  lemma MaskedRange(q: nat, p: nat, x: nat)
    requires p > 0 && q == x / p
    ensures 0 <= q * p <= x
  {
    assert x == q * p + x % p;
    if q > 0 { LeastMultiple(q, p); }
  }

  lemma SameMultiple(a: int, b: int, p: nat)
    requires p > 0
    ensures a * p == b * p <==> a == b
  {
    if a * p == b * p {
      Distribute(a, b, p);
      SmallMultiple(a - b, p);
    }
  }

  lemma MaskedSame(x: nat, y: nat, p: nat)
    requires p > 0
    ensures 0 <= Masked(x, p) <= x
    ensures Masked(x, p) == Masked(y, p) <==> x / p == y / p
  {
    MaskedRange(x / p, p, x);
    SameMultiple(x / p, y / p, p);
  }

  /** Two addresses agree under the mask exactly when they agree after dropping the low bits. */
  lemma SameUnderMask(x: nat, y: nat, mask: nat, k: nat)
    requires x < TWO32 && y < TWO32 && k < 32 && mask == ToUint32(Shl(-1, k))
    ensures And(x, mask) == And(y, mask) <==> x / Pow2(k) == y / Pow2(k)
  {
    PrefixMask(x, mask, k);
    PrefixMask(y, mask, k);
    var p := Pow2(k);
    MaskedSame(x, y, p);
    MaskedSame(y, x, p);
    Unsigned(Masked(x, p));
    Unsigned(Masked(y, p));
  }
}
