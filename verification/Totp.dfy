/** HOTP and TOTP of `src/modules/auth/totp.util.ts` (RFC 4226 section 5, RFC 6238 section 4).
    HMAC-SHA-1 is a parameter: any function from a key and a message to 20 bytes. */
module Totp {
  import opened Words
  import opened Bits
  import opened Text
  import opened Base32

  type Digest = d: seq<Byte> | |d| == 20 witness seq(20, _ => 0)
  type Hmac = (seq<Byte>, seq<Byte>) -> Digest

  datatype Outcome<+T> = Ok(value: T) | RangeError

  const PERIOD_MS: nat := 30_000
  const DIGITS: nat := 6
  const MODULUS: nat := 1_000_000
  const COUNTERS: nat := TWO_TO_32 * TWO_TO_32

  // ----- HOTP ----------------------------------------------------------------

  /** `buf.writeBigUInt64BE(BigInt(counter))` on a buffer of 8 bytes. */
  function CounterBytes(counter: nat): (b: seq<Byte>)
    requires counter < COUNTERS
    ensures |b| == 8
  {
    BitsBytes(BitsOf(counter, 64))
  }

  lemma {:induction false} OffsetLow(b: Byte)
    ensures And(b, 0x0f) == b % 16
  {
    hide And;
    assert Pow2(4) == 16;
    AndLow(b, 4, 16);
    ToUint32Small(b);
  }

  function Offset(d: Digest): (offset: int)
    ensures 0 <= offset <= 15 && offset == d[19] % 16
  {
    OffsetLow(d[|d| - 1]);
    And(d[|d| - 1], 0x0f)
  }

  /** Dynamic truncation with the signed 32-bit operators of the source. */
  function Truncate(d: Digest): int {
    var offset := Offset(d);
    Or(Or(Or(Shl(And(d[offset], 0x7f), 24),
             Shl(And(d[offset + 1], 0xff), 16)),
          Shl(And(d[offset + 2], 0xff), 8)),
       And(d[offset + 3], 0xff))
  }

  /** `%` of the source: the remainder has the sign of the dividend. */
  function Rem(x: int, m: nat): int
    requires m > 0
  {
    if x >= 0 then x % m else -((-x) % m)
  }

  function DigitChar(d: nat): char
    requires d < 10
  {
    ('0' as int + d) as char
  }

  /** `toString()` of a number. */
  function Decimal(n: int): string
    decreases n < 0, if n < 0 then -n else n
  {
    if n < 0 then "-" + Decimal(-n)
    else if n < 10 then [DigitChar(n)]
    else Decimal(n / 10) + [DigitChar(n % 10)]
  }

  /** `s.padStart(width, '0')` */
  function PadStart(s: string, width: nat): string {
    if |s| >= width then s else seq(width - |s|, _ => '0') + s
  }

  function Hotp(hmac: Hmac, key: seq<Byte>, counter: int): Outcome<string> {
    if 0 <= counter < COUNTERS then
      Ok(PadStart(Decimal(Rem(Truncate(hmac(key, CounterBytes(counter))), MODULUS)), DIGITS))
    else RangeError
  }

  // ----- TOTP ----------------------------------------------------------------

  function Counter(epochMs: int): int {
    epochMs / PERIOD_MS
  }

  function GenerateTotp(hmac: Hmac, secret: string, epochMs: int): Outcome<string> {
    Hotp(hmac, Decoded(secret), Counter(epochMs))
  }

  /** `/^\d{6}$/` */
  predicate SixDigits(token: string) {
    |token| == 6 && forall c :: c in token ==> IsDigit(c)
  }

  /** The first event met when trying the counters from `i` to `last` in order: a match, a counter
      that does not fit in 64 bits, or neither. */
  function Scan(hmac: Hmac, key: seq<Byte>, token: string, i: int, last: int): Outcome<bool>
    decreases last + 1 - i
  {
    if i > last then Ok(false)
    else match Hotp(hmac, key, i)
      case RangeError => RangeError
      case Ok(code) => if code == token then Ok(true) else Scan(hmac, key, token, i + 1, last)
  }

  function Verified(hmac: Hmac, secret: string, token: string, window: int, now: int): Outcome<bool> {
    if !SixDigits(token) then Ok(false)
    else Scan(hmac, Decoded(secret), token, Counter(now) - window, Counter(now) + window)
  }

  method VerifyTotp(hmac: Hmac, secret: string, token: string, window: int, now: int)
    returns (r: Outcome<bool>)
    ensures r == Verified(hmac, secret, token, window, now)
  {
    hide Hotp;
    if !SixDigits(token) {
      return Ok(false);
    }
    var key := Base32Decode(secret);
    var counter := Counter(now);
    var i := -window;
    while i <= window
      invariant Scan(hmac, key, token, counter - window, counter + window)
             == Scan(hmac, key, token, counter + i, counter + window)
      decreases window + 1 - i
    {
      match Hotp(hmac, key, counter + i) {
        case RangeError => return RangeError;
        case Ok(code) =>
          if code == token {
            return Ok(true);
          }
      }
      i := i + 1;
    }
    return Ok(false);
  }

  // ----- properties of HOTP --------------------------------------------------

  /** The message bytes are the counter, most significant byte first. */
  lemma {:induction false} CounterBytesValue(counter: nat)
    requires counter < COUNTERS
    ensures Value(BytesBits(CounterBytes(counter))) == counter
  {
    var s := BitsOf(counter, 64);
    UnchunkChunks(8, s);
    assert s[..64] == s;
    Pow2Values();
    ValueBitsOf(counter, 64);
  }

  /** The big-endian 31-bit word of section 5.3 of RFC 4226. */
  function Word31(d: Digest): nat {
    var o := d[19] % 16;
    var b0, b1, b2, b3: int := d[o], d[o + 1], d[o + 2], d[o + 3];
    b0 % 128 * 0x100_0000 + b1 * 0x1_0000 + b2 * 0x100 + b3
  }

  lemma {:induction false} MaskByte(b: nat)
    requires b < 256
    ensures And(b, 0xff) == b
    ensures And(b, 0x7f) == b % 128
  {
    assert Pow2(7) == 128;
    AndLow(b, 7, 128);
    assert Pow2(8) == 256;
    AndLow(b, 8, 256);
    ToUint32Small(b);
    DivBelow(b, 256);
  }

  lemma {:induction false} ShlSmall(v: nat, k: nat, p: nat)
    requires k < 32 && p == Pow2(k) && v * p < TWO_TO_31
    ensures Shl(v, k) == v * p
  {
    MulMono(1, p, v);
    assert ToInt32(v) == v;
  }

  lemma {:induction false} OrPositive(u: nat, lo: nat)
    requires OrBits(u, lo) == u + lo && u + lo < TWO_TO_31
    ensures Or(u, lo) == u + lo
  {
    hide Or, OrBits;
    OrOf(u, lo, u, u + lo);
  }

  /** Or-ing bytes into disjoint positions adds them. */
  lemma {:induction false} OrSmall(hi: nat, lo: nat, k: nat, p: nat, u: nat)
    requires p == Pow2(k) && lo < p && u == hi * p && u + lo < TWO_TO_31
    ensures Or(u, lo) == u + lo
  {
    hide *;
    OrPacks(hi, lo, k, p);
    OrPositive(u, lo);
  }

  lemma {:induction false} PackBytes(a: nat, b: nat, c: nat, d: nat)
    requires a < 128 && b < 256 && c < 256 && d < 256
    ensures Or(Or(Or(Shl(a, 24), Shl(b, 16)), Shl(c, 8)), d)
         == a * 0x100_0000 + b * 0x1_0000 + c * 0x100 + d
  {
    hide Or, Shl;
    Pow2Values();
    ShlSmall(a, 24, 0x100_0000);
    ShlSmall(b, 16, 0x1_0000);
    ShlSmall(c, 8, 0x100);
    OrSmall(a, b * 0x1_0000, 24, 0x100_0000, a * 0x100_0000);
    OrSmall(a * 0x100 + b, c * 0x100, 16, 0x1_0000, (a * 0x100 + b) * 0x1_0000);
    OrSmall((a * 0x100 + b) * 0x100 + c, d, 8, 0x100, ((a * 0x100 + b) * 0x100 + c) * 0x100);
  }

  /** For every digest the truncation stays inside the digest, is never negative, and is the
      masked big-endian word. */
  lemma {:induction false} TruncateIsWord(d: Digest)
    ensures Offset(d) + 3 < |d|
    ensures Truncate(d) == Word31(d) && 0 <= Truncate(d) < TWO_TO_31
  {
    hide Or, Shl, And;
    var o := Offset(d);
    MaskByte(d[o]);
    MaskByte(d[o + 1]);
    MaskByte(d[o + 2]);
    MaskByte(d[o + 3]);
    PackBytes(d[o] % 128, d[o + 1], d[o + 2], d[o + 3]);
  }

  function DigitValue(c: char): (d: nat)
    requires IsDigit(c)
    ensures d < 10 && DigitChar(d) == c
  {
    c as int - '0' as int
  }

  /** Reading a digit string back. */
  function ParseDecimal(s: string): nat
    requires forall c :: c in s ==> IsDigit(c)
  {
    if s == [] then 0
    else
      var c := s[|s| - 1];
      assert c in s;
      10 * ParseDecimal(s[..|s| - 1]) + DigitValue(c)
  }

  function Pow10(n: nat): (p: nat)
    ensures p > 0
  {
    if n == 0 then 1 else 10 * Pow10(n - 1)
  }

  lemma {:induction false} DecimalDigits(n: nat, width: nat)
    requires width > 0 && n < Pow10(width)
    ensures 0 < |Decimal(n)| <= width && forall c :: c in Decimal(n) ==> IsDigit(c)
    ensures ParseDecimal(Decimal(n)) == n
    decreases n
  {
    if n >= 10 {
      assert Pow10(1) == 10;
      DecimalDigits(n / 10, width - 1);
      var s := Decimal(n);
      assert s[..|s| - 1] == Decimal(n / 10);
    } else {
      assert ParseDecimal([]) == 0;
      assert Decimal(n)[..0] == [];
    }
  }

  lemma {:induction false} ParsePadded(k: nat, s: string)
    requires forall c :: c in s ==> IsDigit(c)
    ensures forall c :: c in seq(k, _ => '0') + s ==> IsDigit(c)
    ensures ParseDecimal(seq(k, _ => '0') + s) == ParseDecimal(s)
    decreases k + |s|
  {
    var t := seq(k, _ => '0') + s;
    if s == [] && k == 0 {
    } else if s == [] {
      ParsePadded(k - 1, []);
      assert t[..k - 1] == seq(k - 1, _ => '0') + [];
    } else {
      ParsePadded(k, s[..|s| - 1]);
      assert t[..|t| - 1] == seq(k, _ => '0') + s[..|s| - 1];
    }
  }

  lemma {:induction false} PaddedDigits(n: nat)
    requires n < MODULUS
    ensures var s := PadStart(Decimal(n), DIGITS); SixDigits(s) && ParseDecimal(s) == n
  {
    assert Pow10(3) == 1000;
    assert Pow10(6) == MODULUS;
    DecimalDigits(n, 6);
    var s := Decimal(n);
    ParsePadded(6 - |s|, s);
    if |s| == 6 {
      assert seq(0, _ => '0') + s == s;
    }
  }

  /** A code is always six digits, and reads back as the truncated word modulo 10^6. */
  lemma {:induction false} HotpDigits(hmac: Hmac, key: seq<Byte>, counter: nat)
    requires counter < COUNTERS
    ensures Hotp(hmac, key, counter).Ok? && SixDigits(Hotp(hmac, key, counter).value)
    ensures ParseDecimal(Hotp(hmac, key, counter).value)
         == Word31(hmac(key, CounterBytes(counter))) % 1_000_000
  {
    hide Truncate, Word31, PadStart, SixDigits;
    var d := hmac(key, CounterBytes(counter));
    TruncateIsWord(d);
    PaddedDigits(Word31(d) % MODULUS);
  }

  // ----- properties of TOTP --------------------------------------------------

  /** Some counter in the closed range has this code. */
  ghost predicate CodeInRange(hmac: Hmac, key: seq<Byte>, token: string, first: int, last: int) {
    exists k :: first <= k <= last && Hotp(hmac, key, k) == Ok(token)
  }

  lemma {:induction false} ScanFinds(hmac: Hmac, key: seq<Byte>, token: string, i: int, last: int)
    requires 0 <= i && last < COUNTERS
    ensures Scan(hmac, key, token, i, last) == Ok(CodeInRange(hmac, key, token, i, last))
    decreases last + 1 - i
  {
    hide Hotp;
    if i > last {
    } else {
      HotpDigits(hmac, key, i);
      ScanFinds(hmac, key, token, i + 1, last);
    }
  }

  /** Instant `t`, in milliseconds, lies in time step `k` of 30 seconds, counted from the Unix epoch:
      section 4.2 of RFC 6238. */
  predicate InStep(t: int, k: int) {
    30_000 * k <= t < 30_000 * (k + 1)
  }

  /** The counter is the time step of the standard, for every instant. */
  lemma {:induction false} CounterExact(t: int, k: int)
    ensures Counter(t) == k <==> InStep(t, k)
  {
  }

  /** Verification accepts exactly the codes of the time steps at most `window` away from the present
      one, `c`; in particular every accepted token has six digits. Section 5.2 of RFC 6238. */
  lemma {:induction false} VerifyExact(hmac: Hmac, secret: string, token: string, window: nat, now: nat, c: int)
    requires InStep(now, c) && window <= c && c + window < COUNTERS
    ensures Verified(hmac, secret, token, window, now)
         == Ok(CodeInRange(hmac, Decoded(secret), token, c - window, c + window))
  {
    hide Hotp;
    CounterExact(now, c);
    ScanFinds(hmac, Decoded(secret), token, c - window, c + window);
    if CodeInRange(hmac, Decoded(secret), token, c - window, c + window) {
      var k :| c - window <= k <= c + window && Hotp(hmac, Decoded(secret), k) == Ok(token);
      HotpDigits(hmac, Decoded(secret), k);
    }
  }

  /** What happens at the edges: an empty window refuses, and a window reaching below step 0 fails on
      every well-formed token before anything is compared. */
  lemma {:induction false} VerifyEdges(hmac: Hmac, secret: string, token: string, window: int, now: int)
    ensures !SixDigits(token) || window < 0 ==> Verified(hmac, secret, token, window, now) == Ok(false)
    ensures SixDigits(token) && window >= 0 && now < 30_000 * window
            ==> Verified(hmac, secret, token, window, now) == RangeError
  {
  }

  lemma {:induction false} StepDrift(t: int, k: int, now: int, c: int, window: nat)
    requires InStep(t, k) && InStep(now, c)
    requires t - now <= 30_000 * window && now - t <= 30_000 * window
    ensures c - window <= k <= c + window
  {
  }

  /** The code of the step `k` that `t` lies in, which is what `generateTotp` gives for `t`, is accepted
      at every instant at most 30 000 * window ms away. */
  lemma {:induction false} Drift(hmac: Hmac, secret: string, t: int, k: int, now: nat, c: int, window: nat)
    requires InStep(t, k) && InStep(now, c) && window <= c && c + window < COUNTERS
    requires t - now <= 30_000 * window && now - t <= 30_000 * window
    ensures Hotp(hmac, Decoded(secret), k).Ok? && GenerateTotp(hmac, secret, t) == Hotp(hmac, Decoded(secret), k)
    ensures Verified(hmac, secret, Hotp(hmac, Decoded(secret), k).value, window, now) == Ok(true)
  {
    hide Verified;
    StepDrift(t, k, now, c, window);
    CounterExact(t, k);
    var token := Hotp(hmac, Decoded(secret), k).value;
    assert Hotp(hmac, Decoded(secret), k) == Ok(token);
    VerifyExact(hmac, secret, token, window, now, c);
  }

  /** The same through an enrolled secret: the server holds the base32 text of a raw key, the
      authenticator computes codes from the raw key itself. */
  lemma {:induction false} DriftEnrolled(hmac: Hmac, raw: seq<Byte>, t: int, k: int, now: nat, c: int, window: nat)
    requires InStep(t, k) && InStep(now, c) && window <= c && c + window < COUNTERS
    requires t - now <= 30_000 * window && now - t <= 30_000 * window
    ensures Hotp(hmac, raw, k).Ok?
    ensures Verified(hmac, Encoded(raw), Hotp(hmac, raw, k).value, window, now) == Ok(true)
  {
    hide Verified, Hotp;
    RoundTrip(raw);
    Drift(hmac, Encoded(raw), t, k, now, c, window);
  }

  /** The code of a step more than `window` steps away is accepted if and only if it collides with the
      code of some step inside the window. */
  lemma {:induction false} OutsideWindow(hmac: Hmac, secret: string, k: int, now: nat, c: int, window: nat)
    requires InStep(now, c) && window <= c && c + window < COUNTERS
    requires (k < c - window || c + window < k) && Hotp(hmac, Decoded(secret), k).Ok?
    ensures Verified(hmac, secret, Hotp(hmac, Decoded(secret), k).value, window, now) == Ok(true)
            <==> exists j ::
                   c - window <= j <= c + window && Hotp(hmac, Decoded(secret), j) == Hotp(hmac, Decoded(secret), k)
  {
    hide Hotp, Verified;
    var token := Hotp(hmac, Decoded(secret), k).value;
    VerifyExact(hmac, secret, token, window, now, c);
    assert Hotp(hmac, Decoded(secret), k) == Ok(token);
  }
}
