/**
 The two retry loops: the client's requests, with exponential backoff and statistics, and
 the proxy's restarts of its backend process.
 */
module RetryLoops {
  import opened Powers
  import Decimal

  const U32_LIMIT := 0x1_0000_0000
  const U64_LIMIT := 0x1_0000_0000_0000_0000
  const MAX_RESTARTS := 5

  const NANOS_PER_SECOND := 1_000_000_000

  // ----- Requests

  /** How a request ends; `Overflowed` is the arithmetic panic when the delay after an attempt cannot be computed. */
  datatype RequestResult = Answered(attempt: nat) | Exhausted | Overflowed(attempt: nat)

  /** The power of two in 32 bits, as a build without overflow checks computes it. */
  function BackoffFactor(attempt: nat): nat {
    Pow2(attempt) % U32_LIMIT
  }

  /**
   In a build with overflow checks the power panics when it leaves 32 bits; in every build
   the delay, in nanoseconds, panics when it leaves 64 bits of seconds.
   */
  predicate DelayOverflows(checked: bool, base: nat, attempt: nat) {
    (checked && Pow2(attempt) >= U32_LIMIT) || base * BackoffFactor(attempt) >= U64_LIMIT * NANOS_PER_SECOND
  }

  /** The factor doubles up to the 32nd attempt and is zero from the 33rd on. */
  lemma FactorVanishesFrom32(attempt: nat)
    ensures BackoffFactor(attempt) == if attempt < 32 then Pow2(attempt) else 0
    ensures Pow2(attempt) >= U32_LIMIT <==> attempt >= 32
  {
    PowerLeaves32Bits(attempt);
    if attempt >= 32 {
      PowerIsMultiple(attempt);
    }
  }

  /** In terms of the attempt: a 33rd power that is checked, or a delay of 2^64 seconds or more. */
  lemma DelayOverflowsIff(checked: bool, base: nat, attempt: nat)
    ensures DelayOverflows(checked, base, attempt) <==>
            || (checked && attempt >= 32)
            || (attempt < 32 && base * Pow2(attempt) >= 0x1_0000_0000_0000_0000 * 1_000_000_000)
  {
    FactorVanishesFrom32(attempt);
    hide Pow2, BackoffFactor;
  }

  /**
   With a base delay below 2^32 seconds, delays overflow exactly from the 33rd attempt on,
   and only in a build with overflow checks.
   */
  lemma OrdinaryDelaysOverflowFrom32(checked: bool, base: nat, attempt: nat)
    requires base < U32_LIMIT * NANOS_PER_SECOND
    ensures DelayOverflows(checked, base, attempt) <==> checked && attempt >= 32
  {
    FactorVanishesFrom32(attempt);
    ProductStaysBelow(base, U32_LIMIT * NANOS_PER_SECOND, BackoffFactor(attempt), U32_LIMIT);
  }

  lemma ProductStaysBelow(a: nat, x: nat, b: nat, y: nat)
    requires a < x && b < y
    ensures a * b < x * y
  {
    assert a * b <= a * y < x * y;
  }

  /** The backoff of the first k failures: it doubles until the factor vanishes. */
  function TotalBackoff(base: nat, k: nat): int {
    base * (Pow2(Min(k, 32)) - 1)
  }

  lemma DoublingSum(base: nat, k: nat)
    ensures TotalBackoff(base, k) + base * BackoffFactor(k) == TotalBackoff(base, k + 1)
  {
    FactorVanishesFrom32(k);
    assert Pow2(k + 1) == Pow2(k) + Pow2(k);
    hide Pow2, BackoffFactor;
    if k < 32 {
      Distributes(base, Pow2(k));
    }
  }

  lemma Distributes(base: nat, p: nat)
    ensures base * (p - 1) + base * p == base * (p + p - 1)
  {
  }

  lemma {:induction false} PowerIsMultiple(k: nat)
    requires k >= 32
    ensures Pow2(k) % U32_LIMIT == 0
  {
    if k == 32 {
      PowerLeaves32Bits(k);
    } else {
      PowerIsMultiple(k - 1);
    }
  }

  lemma {:induction false} PowerLeaves32Bits(k: nat)
    ensures Pow2(k) >= U32_LIMIT <==> k >= 32
    ensures Pow2(32) == U32_LIMIT
  {
    assert Pow2(8) == 0x100;
    assert Pow2(16) == 0x1_0000;
    assert Pow2(24) == 0x100_0000;
    assert Pow2(32) == U32_LIMIT;
    if k < 32 {
      PowersGrow(k, 31);
    } else {
      PowersGrow(32, k);
    }
  }

  lemma {:induction false} PowersGrow(j: nat, k: nat)
    requires j <= k
    ensures Pow2(j) <= Pow2(k)
  {
    if j < k {
      PowersGrow(j, k - 1);
    }
  }

  class McpClient {
    var requestCounter: nat
    var retries: nat
    var errors: nat
    ghost var issued: nat

    /** The counter starts at one and counts the issued ids in 64 bits. */
    ghost predicate Valid()
      reads this
    {
      requestCounter == (1 + issued) % U64_LIMIT
    }

    constructor ()
      ensures Valid() && issued == 0 && retries == 0 && errors == 0
    {
      requestCounter, retries, errors, issued := 1, 0, 0, 0;
    }

    /** The next id; the counter wraps at 64 bits. */
    method GenerateRequestId() returns (id: string)
      requires Valid()
      modifies this`requestCounter, this`issued
      ensures Valid() && issued == old(issued) + 1
      ensures id == NthId(old(issued))
      ensures |id| > 4 && id[..4] == "req_" && Decimal.IsNumeral(id[4..])
      ensures Decimal.Value(id[4..]) == (1 + old(issued)) % 0x1_0000_0000_0000_0000
    {
      IdReads(requestCounter);
      hide IdOf;
      var counter := requestCounter;
      requestCounter := (requestCounter + 1) % U64_LIMIT;
      issued := issued + 1;
      id := IdOf(counter);
    }

    /**
     Sends a request up to `maxRetries + 1` times. The first success at attempt k has slept
     the backoff of k failures and counts k retries; a request that never succeeds has slept
     the backoff of all failures but the last and counts one error and no retry. The first
     delay that overflows after a failure ends the request in a panic.
     */
    method SendWithRetries(succeeds: nat -> bool, maxRetries: nat, baseDelay: nat, checked: bool)
      returns (result: RequestResult, attempts: nat, slept: nat)
      modifies this`retries, this`errors
      ensures match result
              case Answered(k) =>
                && k <= maxRetries && succeeds(k)
                && (forall i: nat :: i < k ==> !succeeds(i) && !DelayOverflows(checked, baseDelay, i))
                && attempts == k + 1 && slept == TotalBackoff(baseDelay, k)
                && retries == old(retries) + k && errors == old(errors)
              case Exhausted =>
                && (forall i: nat :: i <= maxRetries ==> !succeeds(i))
                && (forall i: nat :: i < maxRetries ==> !DelayOverflows(checked, baseDelay, i))
                && attempts == maxRetries + 1 && slept == TotalBackoff(baseDelay, maxRetries)
                && retries == old(retries) && errors == old(errors) + 1
              case Overflowed(k) =>
                && k < maxRetries && DelayOverflows(checked, baseDelay, k)
                && (forall i: nat :: i <= k ==> !succeeds(i))
                && (forall i: nat :: i < k ==> !DelayOverflows(checked, baseDelay, i))
                && attempts == k + 1 && slept == TotalBackoff(baseDelay, k)
                && retries == old(retries) && errors == old(errors)
    {
      hide Pow2, DelayOverflows, BackoffFactor, TotalBackoff;
      attempts, slept := 0, 0;
      assert TotalBackoff(baseDelay, 0) == 0 by { NoBackoff(baseDelay); }
      for attempt := 0 to maxRetries + 1
        invariant attempts == attempt
        invariant forall i: nat :: i < attempt ==> !succeeds(i)
        invariant forall i: nat :: i < attempt && i < maxRetries ==> !DelayOverflows(checked, baseDelay, i)
        invariant slept == TotalBackoff(baseDelay, if attempt <= maxRetries then attempt else maxRetries)
        invariant retries == old(retries) && errors == old(errors)
      {
        attempts := attempts + 1;
        if succeeds(attempt) {
          if attempt > 0 {
            retries := retries + attempt;
          }
          return Answered(attempt), attempts, slept;
        }
        if attempt < maxRetries {
          if DelayOverflows(checked, baseDelay, attempt) {
            return Overflowed(attempt), attempts, slept;
          }
          DoublingSum(baseDelay, attempt);
          slept := slept + baseDelay * BackoffFactor(attempt);
        }
      }
      errors := errors + 1;
      result := Exhausted;
    }
  }

  lemma NoBackoff(base: nat)
    ensures TotalBackoff(base, 0) == 0
  {
  }

  function IdOf(counter: nat): string {
    "req_" + Decimal.Natural(counter)
  }

  lemma IdReads(counter: nat)
    ensures |IdOf(counter)| > 4 && IdOf(counter)[..4] == "req_"
    ensures Decimal.IsNumeral(IdOf(counter)[4..]) && Decimal.Value(IdOf(counter)[4..]) == counter
  {
    assert IdOf(counter)[4..] == Decimal.Natural(counter);
    Decimal.NaturalReads(counter);
    Decimal.NaturalIsNumeral(counter);
  }

  /** The id of a client's i-th request. */
  function NthId(i: nat): string {
    IdOf((1 + i) % U64_LIMIT)
  }

  /** Two requests share an id exactly when they are a multiple of 2^64 apart. */
  lemma IdsCoincideIff(i: nat, j: nat)
    ensures NthId(i) == NthId(j) <==> i % U64_LIMIT == j % U64_LIMIT
  {
    hide IdOf;
    SuccessorsWrapAlike(i, j);
    if NthId(i) == NthId(j) {
      IdsDiffer((1 + i) % U64_LIMIT, (1 + j) % U64_LIMIT);
    }
  }

  lemma SuccessorsWrapAlike(i: nat, j: nat)
    ensures (1 + i) % U64_LIMIT == (1 + j) % U64_LIMIT <==> i % U64_LIMIT == j % U64_LIMIT
  {
  }

  lemma IdsDiffer(m: nat, n: nat)
    requires IdOf(m) == IdOf(n)
    ensures m == n
  {
    assert Decimal.Natural(m) == IdOf(m)[4..] == IdOf(n)[4..] == Decimal.Natural(n);
    Decimal.NaturalIsInjective(m, n);
  }

  // ----- Backend restarts

  datatype BackendOutcome = SpawnFailed | Exited | Crashed | CommunicationFailed

  /**
   Runs the backend until it exits normally or the restarts are used up: at most six times,
   with at most 31 seconds of backoff, whatever goes wrong and in whatever way.
   */
  method RunBackend(outcome: nat -> BackendOutcome) returns (ok: bool, iterations: nat, slept: nat)
    ensures 1 <= iterations <= MAX_RESTARTS + 1
    ensures forall i: nat :: i < iterations - 1 ==> !outcome(i).Exited?
    ensures ok <==> outcome(iterations - 1).Exited?
    ensures !ok ==> iterations == MAX_RESTARTS + 1
    ensures slept == Pow2(iterations - 1) - 1 && slept <= 31
  {
    var restartCount := 0;
    iterations, slept := 0, 0;
    while true
      invariant iterations == restartCount <= MAX_RESTARTS
      invariant forall i: nat :: i < iterations ==> !outcome(i).Exited?
      invariant slept == Pow2(restartCount) - 1 && slept <= 31
      decreases MAX_RESTARTS - restartCount
    {
      var result := outcome(iterations);
      iterations := iterations + 1;
      if result.Exited? {
        return true, iterations, slept;
      }
      if restartCount < MAX_RESTARTS {
        restartCount := restartCount + 1;
        slept := slept + Pow2(Min(restartCount - 1, 4));
        PowersGrow(restartCount, MAX_RESTARTS);
        assert Pow2(MAX_RESTARTS) == 32;
      } else {
        return false, iterations, slept;
      }
    }
  }
}
