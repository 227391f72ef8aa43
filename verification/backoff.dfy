/** The capped, doubling delay that the outbox publisher and the campaign processor share. */
module Backoffs {
  import opened Bytes

  function Backoff(attempts: nat): (ms: nat)
    ensures 1000 <= ms <= 60000
  {
    var exponent := if attempts <= 1 then 0 else if attempts - 1 > 6 then 6 else attempts - 1;
    var ms := 1000 * Pow2(exponent);
    if ms > 60000 then 60000 else ms
  }

  lemma BackoffStarts()
    ensures Backoff(0) == 1000 && Backoff(1) == 1000
  {
  }

  /** From the second failure on every delay is twice the one before, up to a minute. */
  lemma BackoffDoubles(attempts: nat)
    requires attempts >= 1
    ensures Backoff(attempts + 1) == if 2 * Backoff(attempts) > 60000 then 60000 else 2 * Backoff(attempts)
  {
    assert Pow2(1) == 2 && Pow2(2) == 4 && Pow2(3) == 8 && Pow2(4) == 16 && Pow2(5) == 32 && Pow2(6) == 64;
  }
}
