/** How long the drainer waits before the next try. Durations are nanoseconds;
    u32, u64 and Duration limits are spelled out. */
module BackoffDelay {
  import opened Text

  const U32_MAX: nat := 0xffff_ffff
  const U64_MAX: nat := 0xffff_ffff_ffff_ffff
  const NANOS_PER_SECOND: nat := 1_000_000_000
  const NANOS_PER_MILLI: nat := 1_000_000
  const MAX_DURATION: nat := U64_MAX * NANOS_PER_SECOND + 999_999_999

  function Pow2(n: nat): (p: nat)
    ensures p >= 1
  {
    if n == 0 then 1 else 2 * Pow2(n - 1)
  }

  function Min(a: nat, b: nat): nat { if a < b then a else b }

  /** The shift, at most 63, of a 1. */
  function Shift(attempt: nat): nat { Min(if attempt > 0 then attempt - 1 else 0, 63) }

  /** Narrowed to u32: anything wider is the largest u32. */
  function Factor(attempt: nat): nat
  {
    var f := Pow2(Shift(attempt));
    if f <= U32_MAX then f else U32_MAX
  }

  /** Duration times u32, which panics when the product is no Duration. */
  function Scaled(initial: nat, factor: nat): Option<nat>
  {
    if initial * factor <= MAX_DURATION then Some(initial * factor) else None
  }

  /** compute_backoff_val without jitter; None is the panic. */
  function Capped(attempt: nat, initial: nat, max: nat): Option<nat>
  {
    match Scaled(initial, Factor(attempt))
    case None => None
    case Some(base) => Some(Min(base, max))
  }

  function SaturatingAdd(a: nat, b: nat): nat { if a + b > U64_MAX then U64_MAX else a + b }

  function SaturatingSub(a: nat, b: nat): nat { if a < b then 0 else a - b }

  /** The cast of the milliseconds to u64. */
  function Millis(d: nat): nat { d / NANOS_PER_MILLI % (U64_MAX + 1) }

  function Jittered(ms: nat, seed: nat): nat
  {
    var range := ms / 5;
    SaturatingSub(SaturatingAdd(ms, seed % (range * 2 + 1)), range)
  }

  /** compute_backoff_val. */
  function Backoff(attempt: nat, initial: nat, max: nat, jitter: bool, seed: nat): Option<nat>
  {
    match Capped(attempt, initial, max)
    case None => None
    case Some(d) => Some(if jitter then Jittered(Millis(d), seed) * NANOS_PER_MILLI else d)
  }

  /******* Laws *******/

  lemma {:induction false} Pow2Grows(m: nat, n: nat)
    requires m <= n
    ensures Pow2(m) <= Pow2(n)
  {
    if m < n { Pow2Grows(m, n - 1); }
  }

  lemma FactorGrows(a: nat, b: nat)
    requires a <= b
    ensures Factor(a) <= Factor(b) <= U32_MAX
  {
    Pow2Grows(Shift(a), Shift(b));
  }

  lemma Pow2At32()
    ensures Pow2(32) == U32_MAX + 1
  {
    assert Pow2(4) == 16 && Pow2(8) == 256 by { assert Pow2(6) == 64; }
    assert Pow2(12) == 4096 && Pow2(16) == 65536 by { assert Pow2(10) == 1024; assert Pow2(14) == 16384; }
    assert Pow2(20) == 1048576 by { assert Pow2(18) == 262144; }
    assert Pow2(24) == 16777216 by { assert Pow2(22) == 4194304; }
    assert Pow2(28) == 268435456 by { assert Pow2(26) == 67108864; }
    assert Pow2(30) == 1073741824;
  }

  lemma FactorTops(attempt: nat)
    requires attempt >= 33
    ensures Factor(attempt) == U32_MAX
  {
    Pow2At32();
    Pow2Grows(32, Shift(attempt));
  }

  lemma TimesGrows(n: nat, a: nat, b: nat)
    requires a <= b
    ensures n * a <= n * b
  {
  }

  /** The multiplication panics at no attempt exactly when the first delay times
      2^32 - 1 is still a Duration. */
  lemma NeverPanics(initial: nat)
    ensures (forall attempt: nat :: Scaled(initial, Factor(attempt)).Some?) <==> initial * U32_MAX <= MAX_DURATION
  {
    if initial * U32_MAX <= MAX_DURATION {
      forall attempt: nat ensures Scaled(initial, Factor(attempt)).Some? {
        FactorGrows(attempt, attempt);
        TimesGrows(initial, Factor(attempt), U32_MAX);
      }
    } else {
      FactorTops(33);
      assert Scaled(initial, Factor(33)).None?;
    }
  }

  /** Without jitter the delay never shrinks from one attempt to a later one,
      and never exceeds the maximum. */
  lemma DelayMonotone(a: nat, b: nat, initial: nat, max: nat, seed: nat, seed': nat)
    requires a <= b && Backoff(b, initial, max, false, seed').Some?
    ensures Backoff(a, initial, max, false, seed).Some?
    ensures Backoff(a, initial, max, false, seed).value <= Backoff(b, initial, max, false, seed').value <= max
  {
    FactorGrows(a, b);
    TimesGrows(initial, Factor(a), Factor(b));
  }

  /** With jitter it stays within a fifth of the capped delay, in milliseconds,
      whatever the seed; the arithmetic may saturate but not escape. */
  lemma JitterBounded(ms: nat, seed: nat)
    requires ms <= U64_MAX
    ensures ms - ms / 5 <= Jittered(ms, seed) <= ms + ms / 5
  {
    var range := ms / 5;
    var j := seed % (range * 2 + 1);
    assert 0 <= j <= range * 2;
  }

  /** So does the delay, exactly while its milliseconds fit a u64. */
  lemma DelayWithJitter(attempt: nat, initial: nat, max: nat, seed: nat)
    requires Capped(attempt, initial, max).Some?
    ensures var d := Capped(attempt, initial, max).value;
      var ms, r := d / NANOS_PER_MILLI, Backoff(attempt, initial, max, true, seed).value;
      && d <= max
      && ((ms - ms / 5) * NANOS_PER_MILLI <= r <= (ms + ms / 5) * NANOS_PER_MILLI <==> ms <= U64_MAX)
  {
    hide Jittered, Factor, Scaled;
    var d := Capped(attempt, initial, max).value;
    var ms := d / NANOS_PER_MILLI;
    if ms <= U64_MAX {
      assert Millis(d) == ms;
      JitterBounded(ms, seed);
    } else {
      TruncatedJitter(ms, seed);
    }
    InNanos(ms - ms / 5, Jittered(Millis(d), seed), ms + ms / 5);
  }

  lemma InNanos(a: nat, r: nat, b: nat)
    ensures a <= r <= b <==> a * NANOS_PER_MILLI <= r * NANOS_PER_MILLI <= b * NANOS_PER_MILLI
  {
  }

  /** Milliseconds cut to a u64 fall short of four fifths of what they were. */
  lemma TruncatedJitter(ms: nat, seed: nat)
    requires ms > U64_MAX
    ensures Jittered(ms % (U64_MAX + 1), seed) < ms - ms / 5
  {
    var x := ms % (U64_MAX + 1);
    JitterBounded(x, seed);
    assert SaturatingAdd(x, seed % (x / 5 * 2 + 1)) <= U64_MAX;
    if ms < 2 * (U64_MAX + 1) { assert x == ms - (U64_MAX + 1); }
  }
}
