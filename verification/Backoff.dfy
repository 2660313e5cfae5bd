/** The retry delay of the plugin task queue: a wrapping 64-bit shift followed by a clamp. */
module Backoff {

  const MAX_BACKOFF_MS: int := 3_600_000
  const TWO_63: int := 0x8000_0000_0000_0000
  const TWO_64: int := 0x1_0000_0000_0000_0000

  function Pow2(n: nat): (p: nat)
    ensures p >= 1
  {
    if n == 0 then 1 else 2 * Pow2(n - 1)
  }

  /** Two's complement truncation of an unbounded integer to a signed 64-bit one. */
  function ToInt64(x: int): (r: int)
    ensures -0x8000_0000_0000_0000 <= r <= 0x7FFF_FFFF_FFFF_FFFF && (x - r) % TWO_64 == 0
  {
    var m := x % TWO_64;
    assert x == x / TWO_64 * TWO_64 + m;
    WholeTurns(x / TWO_64);
    WholeTurns(x / TWO_64 + 1);
    if m < TWO_63 then m else m - TWO_64
  }

  lemma WholeTurns(k: int)
    ensures k * TWO_64 % TWO_64 == 0
  {
  }

  /** Go's `x << n` on int64: bits shifted past the top are lost, and n >= 64 leaves nothing. */
  function ShiftLeft(x: int, n: nat): int {
    if n >= 64 then 0 else ToInt64(x * Pow2(n))
  }

  /** The delay before retry number `attempt`. A negative shift count would panic, hence attempt >= 1. */
  function Delay(backoffMs: int, attempt: int): int
    requires attempt >= 1
  {
    var backoff := ShiftLeft(backoffMs, attempt - 1);
    if backoff <= 0 || backoff > MAX_BACKOFF_MS then MAX_BACKOFF_MS else backoff
  }

  /** What the configuration promises: backoffMs * 2^(attempt-1), capped at one hour. */
  function PromisedDelay(backoffMs: int, attempt: int): int
    requires attempt >= 1
  {
    var exact := backoffMs * Pow2(attempt - 1);
    if exact > MAX_BACKOFF_MS then MAX_BACKOFF_MS else exact
  }

  /** The part of backoffMs * 2^n that survives the shift. */
  function Surviving(backoffMs: int, n: nat): int
    requires n <= 64
  {
    (backoffMs % Pow2(64 - n)) * Pow2(n)
  }

  /** The base loses high bits in the shift, and what is left looks like a legitimate short delay. */
  predicate WrapsToShortDelay(backoffMs: int, attempt: int)
    requires attempt >= 1
  {
    var n := attempt - 1;
    n < 64 && backoffMs >= Pow2(64 - n) && 0 < Surviving(backoffMs, n) < MAX_BACKOFF_MS
  }

  lemma {:induction false} Pow2Add(a: nat, b: nat)
    ensures Pow2(a + b) == Pow2(a) * Pow2(b)
  {
    if a > 0 {
      Pow2Add(a - 1, b);
      assert Pow2(a + b) == 2 * (Pow2(a - 1) * Pow2(b));
      assert 2 * (Pow2(a - 1) * Pow2(b)) == (2 * Pow2(a - 1)) * Pow2(b);
    }
  }

  lemma {:induction false} Pow2Monotone(a: nat, b: nat)
    requires a <= b
    ensures Pow2(a) <= Pow2(b)
    decreases b - a
  {
    if a < b {
      Pow2Monotone(a, b - 1);
    }
  }

  lemma Pow2Small()
    ensures Pow2(6) == 64 && Pow2(8) == 256 && Pow2(11) == 2048
  {
    assert Pow2(3) == 8;
    Pow2Add(3, 3);
    Pow2Add(3, 5);
    Pow2Add(8, 3);
  }

  lemma Pow2Facts()
    ensures Pow2(22) == 4_194_304 && Pow2(43) == 8_796_093_022_208 && Pow2(64) == TWO_64
  {
    hide Pow2;
    Pow2Small();
    Pow2Add(8, 8);
    Pow2Add(16, 16);
    Pow2Add(32, 32);
    Pow2Add(16, 6);
    Pow2Add(32, 11);
  }

  lemma Quotient(b: int, p: int)
    requires p > 0
    ensures b == p * (b / p) + b % p && 0 <= b % p < p
  {
  }

  lemma Distribute(p: int, q: int, r: int, s: int)
    ensures (p * q + r) * s == q * (p * s) + r * s
  {
    assert (p * q) * s == q * (p * s);
  }

  lemma ModOfSplit(x: int, q: int, rest: int)
    requires x == q * TWO_64 + rest && 0 <= rest < TWO_64
    ensures x % TWO_64 == rest
  {
  }

  lemma RemainderFits(r: int, p: int, s: int)
    requires 0 <= r < p && s > 0 && p * s == TWO_64
    ensures 0 <= r * s < TWO_64
  {
    MulMonotone(0, r, s);
    MulMonotone(r + 1, p, s);
    assert (r + 1) * s == r * s + s;
  }

  /** Scaling by s commutes with reduction when the modulus is scaled too. */
  lemma ScaledRemainder(b: int, p: int, s: int)
    requires p > 0 && s > 0 && p * s == TWO_64
    ensures 0 <= (b % p) * s < TWO_64
    ensures (b * s) % TWO_64 == (b % p) * s
  {
    Quotient(b, p);
    RemainderFits(b % p, p, s);
    Distribute(p, b / p, b % p, s);
    ModOfSplit(b * s, b / p, (b % p) * s);
  }

  lemma Complements(n: nat)
    requires n < 64
    ensures Pow2(64 - n) * Pow2(n) == TWO_64
  {
    Pow2Add(64 - n, n);
    Pow2Facts();
  }

  /** The shift keeps the low 64 bits, which are the low 64-n bits of the base moved up. */
  lemma ShiftKeepsSurviving(b: int, n: nat)
    requires 1 <= b < TWO_63 && n < 64
    ensures 0 <= Surviving(b, n) < TWO_64
    ensures (b * Pow2(n)) % TWO_64 == Surviving(b, n)
    ensures b < Pow2(64 - n) ==> Surviving(b, n) == b * Pow2(n)
    ensures b >= Pow2(64 - n) ==> b * Pow2(n) >= TWO_64
  {
    Complements(n);
    ScaledRemainder(b, Pow2(64 - n), Pow2(n));
    if b >= Pow2(64 - n) {
      MulMonotone(Pow2(64 - n), b, Pow2(n));
    } else {
      SmallRemainder(b, Pow2(64 - n));
    }
  }

  lemma SmallRemainder(b: int, p: int)
    requires 0 <= b < p
    ensures b % p == b
  {
  }

  lemma MulMonotone(a: int, b: int, c: int)
    requires a <= b && c >= 0
    ensures a * c <= b * c
  {
  }

  /**
   * Exactly when the shift-and-clamp yields the promised delay, for every positive base and every
   * attempt: unless high bits fall off and the remainder passes for a short delay.
   */
  lemma DelayIsPromisedIff(b: int, attempt: int)
    requires 1 <= b < TWO_63 && attempt >= 1
    ensures Delay(b, attempt) == PromisedDelay(b, attempt) <==> !WrapsToShortDelay(b, attempt)
  {
    var n := attempt - 1;
    MulMonotone(1, b, Pow2(n));
    if n >= 64 {
      Pow2Facts();
      Pow2Monotone(22, n);
    } else {
      ShiftKeepsSurviving(b, n);
      ClampedSurvivor(b, n);
    }
  }

  /** A shift of 22 or more leaves either nothing or something beyond the cap. */
  lemma ClampedSurvivor(b: int, n: nat)
    requires 1 <= b < TWO_63 && n < 64
    ensures n >= 22 ==> b * Pow2(n) > MAX_BACKOFF_MS && !(0 < Surviving(b, n) <= MAX_BACKOFF_MS)
  {
    if n >= 22 {
      hide Pow2;
      Pow2Facts();
      Pow2Monotone(22, n);
      var p, r := Pow2(n), b % Pow2(64 - n);
      assert Surviving(b, n) == r * p && p > MAX_BACKOFF_MS;
      hide Surviving;
      MulMonotone(1, b, p);
      if r >= 1 {
        MulMonotone(1, r, p);
      } else {
        assert r == 0;
      }
    }
  }

  /** Whatever the base, the delay lies between one millisecond and one hour. */
  lemma DelayInRange(b: int, attempt: int)
    requires attempt >= 1
    ensures 1 <= Delay(b, attempt) <= 3_600_000
  {
  }

  function Capped(ms: int): int {
    if ms > MAX_BACKOFF_MS then MAX_BACKOFF_MS else ms
  }

  lemma PromiseDoubles(b: int, attempt: int)
    requires 1 <= b && attempt >= 1
    ensures PromisedDelay(b, attempt + 1) == Capped(2 * PromisedDelay(b, attempt))
  {
    assert Pow2(attempt) == 2 * Pow2(attempt - 1);
    assert b * (2 * Pow2(attempt - 1)) == 2 * (b * Pow2(attempt - 1));
  }

  /** A base of up to 2^43 ms (over 278 years) is exact on every attempt, and doubles until it hits the cap. */
  lemma DelayIsPromised(b: int, attempt: int)
    requires 1 <= b <= Pow2(43) && attempt >= 1
    ensures Delay(b, attempt) == PromisedDelay(b, attempt)
    ensures Delay(b, attempt + 1) == Capped(2 * Delay(b, attempt))
  {
    assert b < TWO_63 by { Pow2Facts(); }
    NoWrapUpTo43(b, attempt);
    NoWrapUpTo43(b, attempt + 1);
    DelayIsPromisedIff(b, attempt);
    DelayIsPromisedIff(b, attempt + 1);
    PromiseDoubles(b, attempt);
  }

  lemma NoWrapUpTo43(b: int, attempt: int)
    requires 1 <= b <= Pow2(43) && attempt >= 1
    ensures !WrapsToShortDelay(b, attempt)
  {
    var n := attempt - 1;
    assert b < TWO_63 by { Pow2Facts(); }
    if 22 <= n < 64 {
      ClampedSurvivor(b, n);
    } else if n < 22 {
      Pow2Monotone(43, 64 - n);
      if b >= Pow2(64 - n) {
        assert b == Pow2(64 - n);
        SelfRemainder(b);
      }
    }
  }

  lemma SelfRemainder(b: int)
    requires b > 0
    ensures b % b == 0
  {
  }

  /** One millisecond more and the 22nd attempt waits about 35 minutes instead of the promised hour. */
  lemma DelayWrapsBeyond43()
    ensures Delay(Pow2(43) + 1, 22) == 2_097_152
    ensures PromisedDelay(Pow2(43) + 1, 22) == 3_600_000
  {
    Pow2Facts();
    assert Pow2(22) == 2 * Pow2(21);
    Pow2Add(43, 21);
    ShiftKeepsSurviving(Pow2(43) + 1, 21);
    assert (Pow2(43) + 1) % Pow2(43) == 1;
  }
}
