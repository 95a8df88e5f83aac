/** The 32-bit integer operators of ECMAScript, as `totp.util.ts` uses them, over unbounded integers.
    Operands are converted by ToInt32 or ToUint32 and results wrap, exactly as in the language
    standard; the lemmas say what a shift-and-or or a shift-and-mask means for an operand that is
    the wrapped image of an unbounded number. */
module Words {
  function Pow2(n: nat): (p: nat)
    ensures p > 0
  {
    if n == 0 then 1 else 2 * Pow2(n - 1)
  }

  const TWO_TO_31: nat := 0x8000_0000
  const TWO_TO_32: nat := 0x1_0000_0000

  function ToUint32(x: int): nat {
    x % TWO_TO_32
  }

  function ToInt32(x: int): int {
    if ToUint32(x) < TWO_TO_31 then ToUint32(x) else ToUint32(x) - TWO_TO_32
  }

  /** `x << n` */
  function Shl(x: int, n: nat): int
    requires n < 32
  {
    ToInt32(ToInt32(x) * Pow2(n))
  }

  lemma {:induction false} DivNatural(a: nat, d: nat)
    requires d > 0
    ensures a / d >= 0
  {
  }

  /** `x >>> n` */
  function ShrU(x: int, n: nat): nat
    requires n < 32
  {
    DivNatural(ToUint32(x), Pow2(n));
    ToUint32(x) / Pow2(n)
  }

  function OrBits(a: nat, b: nat): nat
    decreases a + b
  {
    if a == 0 && b == 0 then 0
    else 2 * OrBits(a / 2, b / 2) + (if a % 2 == 1 || b % 2 == 1 then 1 else 0)
  }

  /** `x | y` */
  function Or(x: int, y: int): int {
    ToInt32(OrBits(ToUint32(x), ToUint32(y)))
  }

  function AndBits(a: nat, b: nat): nat
    decreases a + b
  {
    if a == 0 && b == 0 then 0
    else 2 * AndBits(a / 2, b / 2) + (if a % 2 == 1 && b % 2 == 1 then 1 else 0)
  }

  /** `x & y` */
  function And(x: int, y: int): int {
    ToInt32(AndBits(ToUint32(x), ToUint32(y)))
  }

  // ----- powers of two and division ----------------------------------------

  lemma {:induction false} Pow2Add(m: nat, n: nat)
    ensures Pow2(m + n) == Pow2(m) * Pow2(n)
  {
    if n == 0 {
    } else {
      Pow2Add(m, n - 1);
      assert Pow2(m + n) == 2 * (Pow2(m) * Pow2(n - 1));
    }
  }

  lemma {:induction false} Pow2Values()
    ensures Pow2(1) == 2 && Pow2(4) == 16 && Pow2(5) == 32 && Pow2(7) == 128 && Pow2(8) == 256
    ensures Pow2(16) == 0x1_0000 && Pow2(24) == 0x100_0000 && Pow2(32) == TWO_TO_32
    ensures Pow2(64) == TWO_TO_32 * TWO_TO_32
  {
    assert Pow2(1) == 2 && Pow2(2) == 4 && Pow2(3) == 8 && Pow2(4) == 16;
    Pow2Add(4, 1);
    Pow2Add(4, 3);
    Pow2Add(4, 4);
    Pow2Add(8, 8);
    Pow2Add(16, 8);
    Pow2Add(16, 16);
    Pow2Add(32, 32);
  }

  lemma {:induction false} MulMono(a: int, b: int, d: nat)
    requires a <= b
    ensures a * d <= b * d
  {
    assert (b - a) * d >= 0;
  }

  lemma {:induction false} MulSplit(a: int, b: int, d: int)
    ensures (a + b) * d == a * d + b * d
    ensures (a - b) * d == a * d - b * d
  {
  }

  lemma {:induction false} MulAssoc(a: int, b: int, d: int)
    ensures a * (b * d) == a * b * d
  {
  }

  /** The quotient and remainder are the only ones. */
  lemma {:induction false} DivModUnique(x: int, d: nat, q: int, r: nat)
    requires 0 < d && r < d && x == q * d + r
    ensures x / d == q && x % d == r
  {
    var k := x / d - q;
    MulSplit(x / d, q, d);
    assert k * d == r - x % d;
    if k >= 1 {
      MulMono(1, k, d);
    } else if k <= -1 {
      MulMono(k, -1, d);
    }
  }

  lemma {:induction false} DivStep(x: nat, n: nat)
    requires 0 < n <= x
    ensures x / n == (x - n) / n + 1 && x % n == (x - n) % n
  {
    MulSplit((x - n) / n, 1, n);
    DivModUnique(x, n, (x - n) / n + 1, (x - n) % n);
  }

  lemma {:induction false} DivBelow(x: nat, n: nat)
    requires x < n
    ensures x / n == 0 && x % n == x
  {
    DivModUnique(x, n, 0, x);
  }

  lemma {:induction false} DivMono(a: nat, b: nat, n: nat)
    requires a <= b && n > 0
    ensures a / n <= b / n
  {
    if a / n > b / n {
      MulMono(b / n + 1, a / n, n);
      MulSplit(b / n, 1, n);
    }
  }

  /** Reducing modulo a multiple first changes nothing. */
  lemma {:induction false} ModMod(x: int, m: nat, k: nat)
    requires m > 0 && k > 0
    ensures m * k > 0 && (x % (m * k)) % m == x % m
  {
    MulMono(1, k, m);
    var q, r := x / (m * k), x % (m * k);
    var q1, r1 := r / m, r % m;
    MulAssoc(q, k, m);
    MulSplit(q * k, q1, m);
    DivModUnique(x, m, q * k + q1, r1);
  }

  lemma {:induction false} ModAddMultiple(x: int, q: int, m: nat)
    requires m > 0
    ensures (q * m + x) % m == x % m
  {
    MulSplit(q, x / m, m);
    DivModUnique(q * m + x, m, q + x / m, x % m);
  }

  // ----- what the bit operators compute --------------------------------------

  lemma {:induction false} OrZero(a: nat)
    ensures OrBits(a, 0) == a
    decreases a
  {
    if a == 0 {
    } else {
      OrZero(a / 2);
    }
  }

  lemma {:induction false} OrStep(h: nat, b: nat)
    ensures OrBits(h * 2, b) == 2 * OrBits(h, b / 2) + b % 2
  {
  }

  /** Or-ing a number below 2^n into a multiple of 2^n adds it. */
  lemma {:induction false} OrPacks(a: nat, b: nat, n: nat, p: nat)
    requires p == Pow2(n) && b < p
    ensures OrBits(a * p, b) == a * p + b
    decreases n
  {
    if n == 0 {
      OrZero(a);
    } else {
      var q := Pow2(n - 1);
      OrPacks(a, b / 2, n - 1, q);
      MulAssoc(a, q, 2);
      OrStep(a * q, b);
    }
  }

  lemma {:induction false} AndZero(a: nat)
    ensures AndBits(a, 0) == 0
    decreases a
  {
    if a == 0 {
    } else {
      AndZero(a / 2);
    }
  }

  lemma {:induction false} HalveMod(a: nat, m: nat)
    requires m > 0
    ensures a % (2 * m) == 2 * ((a / 2) % m) + a % 2
  {
    var q, r := (a / 2) / m, (a / 2) % m;
    MulAssoc(q, 2, m);
    DivModUnique(a, 2 * m, q, 2 * r + a % 2);
  }

  lemma {:induction false} AndStep(a: nat, m: nat)
    requires m > 0
    ensures AndBits(a, 2 * m - 1) == 2 * AndBits(a / 2, m - 1) + a % 2
  {
    var b: nat := 2 * m - 1;
    assert b / 2 == m - 1 && b % 2 == 1;
  }

  /** And-ing with the mask 2^n - 1 is the remainder modulo 2^n. */
  lemma {:induction false} AndMask(a: nat, n: nat, m: nat)
    requires m == Pow2(n)
    ensures AndBits(a, m - 1) == a % m
    decreases n
  {
    if n == 0 {
      AndZero(a);
    } else {
      var h := Pow2(n - 1);
      AndMask(a / 2, n - 1, h);
      AndStep(a, h);
      HalveMod(a, h);
      assert m == 2 * h;
    }
  }

  // ----- wrapped images of unbounded numbers ---------------------------------

  lemma {:induction false} ToInt32Multiple(n: int) returns (w: int)
    ensures ToInt32(n) == n - w * TWO_TO_32
  {
    w := n / TWO_TO_32 + (if ToUint32(n) < TWO_TO_31 then 0 else 1);
  }

  /** Wrapping before a multiplication is the same as wrapping after it. */
  lemma {:induction false} WrapMul(n: int, p: nat)
    ensures ToUint32(ToInt32(n) * p) == ToUint32(n * p)
  {
    var w := ToInt32Multiple(n);
    MulSplit(n, w * TWO_TO_32, p);
    assert ToInt32(n) * p == (-w * p) * TWO_TO_32 + n * p;
    ModAddMultiple(n * p, -w * p, TWO_TO_32);
  }

  lemma {:induction false} ScaleMod(n: nat, p: nat, c: nat, b: nat)
    requires p > 0 && c > 0 && b < p
    ensures c * p > 0 && (n * p + b) % (c * p) == (n % c) * p + b
  {
    var q, r := n / c, n % c;
    MulMono(r + 1, c, p);
    MulSplit(r, 1, p);
    MulSplit(q * c, r, p);
    MulAssoc(q, c, p);
    assert n * p + b == q * (c * p) + (r * p + b);
    DivModUnique(n * p + b, c * p, q, r * p + b);
  }

  /** Powers of two below 2^32 are non-negative 32-bit integers. */
  lemma {:induction false} Pow2Fits(k: nat)
    requires k < 32
    ensures Pow2(k) <= TWO_TO_31
    ensures Pow2(32 - k) * Pow2(k) == TWO_TO_32
  {
    Pow2Values();
    Pow2Add(32 - k, k);
    MulMono(2, Pow2(32 - k), Pow2(k));
  }

  lemma {:induction false} ToInt32Idempotent(x: int)
    ensures ToUint32(ToInt32(x)) == ToUint32(x)
    ensures ToInt32(ToInt32(x)) == ToInt32(x)
    ensures ToInt32(ToUint32(x)) == ToInt32(x)
  {
  }

  lemma {:induction false} ShlWraps(n: nat, k: nat, p: nat)
    requires k < 32 && p == Pow2(k)
    ensures ToUint32(Shl(ToInt32(n), k)) == ToUint32(n * p)
  {
    WrapMul(n, p);
    ToInt32Idempotent(n);
    ToInt32Idempotent(ToInt32(n) * p);
  }

  lemma {:induction false} HighPart(n: nat, p: nat, k: nat, b: nat, np: nat) returns (u: nat)
    requires k < 32 && p == Pow2(k) && b < p && np == n * p
    ensures ToUint32(np) == u && ToUint32(np + b) == u + b && OrBits(u, b) == u + b
  {
    var c := Pow2(32 - k);
    Pow2Fits(k);
    ScaleMod(n, p, c, 0);
    ScaleMod(n, p, c, b);
    u := (n % c) * p;
    OrPacks(n % c, b, k, p);
  }

  lemma {:induction false} ToUint32Small(b: nat)
    requires b < TWO_TO_32
    ensures ToUint32(b) == b
  {
  }

  lemma {:induction false} OrOf(x: int, b: nat, u: nat, z: nat)
    requires b <= TWO_TO_31 && ToUint32(x) == u && OrBits(u, b) == u + b && ToUint32(z) == u + b
    ensures Or(x, b) == ToInt32(z)
  {
    hide OrBits, ToUint32, ToInt32;
    ToUint32Small(b);
    ToInt32Idempotent(z);
    assert Or(x, b) == ToInt32(OrBits(u, b));
  }

  /** Shifting `k` bits in: on the wrapped image of any number `n`, however large, the operators
      compute the wrapped image of n * 2^k + b. */
  lemma {:induction false} ShiftIn(n: nat, k: nat, p: nat, b: nat)
    requires k < 32 && p == Pow2(k) && b < p
    ensures Or(Shl(ToInt32(n), k), b) == ToInt32(n * p + b)
  {
    var np := n * p;
    ShlWraps(n, k, p);
    Pow2Fits(k);
    var u := HighPart(n, p, k, b, np);
    OrOf(Shl(ToInt32(n), k), b, u, np + b);
  }

  lemma {:induction false} AndWithin(x: int, y: nat)
    requires y < TWO_TO_32
    ensures And(x, y) == ToInt32(AndBits(ToUint32(x), y))
  {
    ToUint32Small(y);
  }

  lemma {:induction false} ModBelow(x: nat, m: nat)
    requires 0 < m <= TWO_TO_31
    ensures ToInt32(x % m) == x % m
  {
  }

  lemma {:induction false} AndLow(x: int, k: nat, m: nat)
    requires k < 32 && m == Pow2(k)
    ensures And(x, m - 1) == ToUint32(x) % m
  {
    Pow2Fits(k);
    AndWithin(x, m - 1);
    AndMask(ToUint32(x), k, m);
    ModBelow(ToUint32(x), m);
  }

  /** The bits above position `s` of the wrapped image, cut to `k` bits inside the 32-bit window. */
  lemma {:induction false} WindowDiv(n: nat, p: nat, m: nat, e: nat)
    requires p > 0 && m > 0 && e > 0 && e * m * p == TWO_TO_32
    ensures (ToUint32(n) / p) % m == (n / p) % m
  {
    var q, r := n / TWO_TO_32, ToUint32(n);
    MulAssoc(q, e * m, p);
    MulSplit(q * (e * m), r / p, p);
    DivModUnique(n, p, q * (e * m) + r / p, r % p);
    MulAssoc(q, e, m);
    ModAddMultiple(r / p, q * e, m);
  }

  lemma {:induction false} DivSmaller(x: nat, p: nat)
    requires p > 0
    ensures 0 <= x / p <= x
  {
    MulMono(1, p, x / p);
  }

  lemma {:induction false} ShrUWraps(n: nat, s: nat, p: nat)
    requires s < 32 && p == Pow2(s)
    ensures ToUint32(ShrU(ToInt32(n), s)) == ToUint32(n) / p
  {
    ToInt32Idempotent(n);
    DivSmaller(ToUint32(n), p);
  }

  lemma {:induction false} WindowFactors(s: nat, p: nat, k: nat, m: nat)
    requires s + k < 32 && p == Pow2(s) && m == Pow2(k)
    ensures Pow2(32 - s - k) * m * p == TWO_TO_32
  {
    Pow2Fits(s);
    Pow2Add(32 - s - k, k);
  }

  /** Shifting right and masking: on the wrapped image of any number `n`, the `k` bits above
      position `s`, provided they lie inside the 32-bit window. */
  lemma {:induction false} ShiftOut(n: nat, s: nat, p: nat, k: nat, m: nat)
    requires s + k < 32 && p == Pow2(s) && m == Pow2(k)
    ensures And(ShrU(ToInt32(n), s), m - 1) == (n / p) % m
  {
    ShrUWraps(n, s, p);
    AndLow(ShrU(ToInt32(n), s), k, m);
    WindowFactors(s, p, k, m);
    WindowDiv(n, p, m, Pow2(32 - s - k));
  }

  lemma {:induction false} ModWindow(x: nat, m: nat, e: nat)
    requires m > 0 && e > 0 && e * m == TWO_TO_32
    ensures ToUint32(x) % m == x % m
  {
    ModMod(x, m, e);
  }

  /** Shifting left by `s` and masking `k` bits. */
  lemma {:induction false} ShiftLeftMask(n: nat, s: nat, p: nat, k: nat, m: nat)
    requires s < 32 && k < 32 && p == Pow2(s) && m == Pow2(k)
    ensures And(Shl(ToInt32(n), s), m - 1) == (n * p) % m
  {
    hide Shl, And, Pow2;
    ShlWraps(n, s, p);
    AndLow(Shl(ToInt32(n), s), k, m);
    Pow2Fits(k);
    var x := n * p;
    ModWindow(x, m, Pow2(32 - k));
  }
}
