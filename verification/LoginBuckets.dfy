/** The lazily refilled token bucket that limits login attempts. Times and
    tokens are reals: rounding of binary floating point is not modelled. */
module LoginBuckets {
  import opened Prelude

  const LOGIN_BURST := 8.0
  const LOGIN_RATE := 8.0 / 60.0
  const GLOBAL_BURST := 32.0
  const GLOBAL_RATE := 8.0
  const IDLE_SECONDS := 60.0

  /** `at == None` is the zero time of a bucket that was never used. */
  datatype LoginBucket = LoginBucket(tokens: real, at: Option<real>)

  const UNUSED_BUCKET := LoginBucket(0.0, None)

  function Min(a: real, b: real): real {
    if a <= b then a else b
  }

  /** What the rate adds from one time to another. */
  function Gain(from: real, to: real, rate: real): real {
    (to - from) * rate
  }

  function Refill(b: LoginBucket, now: real, rate: real, burst: real): LoginBucket {
    if b.at.None? then LoginBucket(burst, Some(now))
    else LoginBucket(Min(burst, b.tokens + Gain(b.at.value, now, rate)), Some(now))
  }

  /** A bucket that was last touched no later than `t` and holds between 0 and `burst` tokens. */
  predicate Sound(b: LoginBucket, t: real, burst: real) {
    b.at.Some? ==> b.at.value <= t && 0.0 <= b.tokens <= burst
  }

  lemma GainIsPositive(from: real, to: real, rate: real)
    requires from <= to && 0.0 <= rate
    ensures 0.0 <= Gain(from, to, rate)
  {
  }

  /** What the rate adds over two consecutive spans is what it adds over both. */
  lemma GainsAdd(t: real, u: real, v: real, rate: real)
    ensures Gain(t, u, rate) + Gain(u, v, rate) == Gain(t, v, rate)
  {
  }

  /** Refilling twice is refilling once: a skipped or repeated refill loses nothing. */
  lemma RefillsCompose(b: LoginBucket, t: real, u: real, rate: real, burst: real)
    requires Sound(b, t, burst) && t <= u && 0.0 <= rate && 0.0 <= burst
    ensures Refill(Refill(b, t, rate, burst), u, rate, burst) == Refill(b, u, rate, burst)
  {
  }

  /** A refill keeps a bucket sound and takes no token away. */
  lemma RefillIsSound(b: LoginBucket, t: real, rate: real, burst: real)
    requires Sound(b, t, burst) && 0.0 <= rate && 0.0 <= burst
    ensures Sound(Refill(b, t, rate, burst), t, burst)
    ensures b.at.Some? ==> b.tokens <= Refill(b, t, rate, burst).tokens
  {
    if b.at.Some? {
      GainIsPositive(b.at.value, t, rate);
    }
  }

  /** A client idle for a minute has refilled to exactly the burst, so it is
      indistinguishable from a client that was never seen. */
  lemma IdleMinuteRefillsBurst(b: LoginBucket, now: real)
    requires Sound(b, now, LOGIN_BURST)
    requires b.at.Some? && b.at.value + IDLE_SECONDS <= now
    ensures Refill(b, now, LOGIN_RATE, LOGIN_BURST) == Refill(UNUSED_BUCKET, now, LOGIN_RATE, LOGIN_BURST)
  {
  }

  /** The idle interval cannot be shortened: an emptied client forgotten any
      earlier would come back with more tokens than it had refilled. */
  lemma ShorterIdleIsVisible(at: real, now: real)
    requires at <= now < at + IDLE_SECONDS
    ensures Refill(LoginBucket(0.0, Some(at)), now, LOGIN_RATE, LOGIN_BURST).tokens
         < Refill(UNUSED_BUCKET, now, LOGIN_RATE, LOGIN_BURST).tokens
  {
  }

  /** Spending a token and waiting: the credit at a later time is never more
      than the credit now, less the token, plus what the rate adds. */
  lemma CreditGrowsAtRate(b: LoginBucket, t: real, u: real, rate: real, burst: real)
    requires Sound(b, t, burst) && t <= u && 0.0 <= rate && 0.0 <= burst
    ensures Refill(b, u, rate, burst).tokens <= Refill(b, t, rate, burst).tokens + Gain(t, u, rate)
  {
  }
}
