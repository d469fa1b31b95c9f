/**
 * Counter<T>: an atomic count that hands out its value and moves on. For
 * an unsigned T the increment wraps at 2^width, which `modulus` stands
 * for (2^32 for the `unsigned int` counters of CounterManager).
 */
module Counters {
  import opened Bytes

  /** The count after one increment of a counter wrapping at `modulus`. */
  function Next(count: nat, modulus: nat): (r: nat)
    requires 0 < modulus
    ensures r < modulus
    ensures count + 1 < modulus ==> r == count + 1
  {
    (count + 1) % modulus
  }

  /** The values handed out by `k` calls of getAndIncrement in a row, from `count`. */
  function Issued(count: nat, modulus: nat, k: nat): (r: seq<nat>)
    requires 0 < modulus
    ensures |r| == k
    decreases k
  {
    if k == 0 then [] else [count] + Issued(Next(count, modulus), modulus, k - 1)
  }

  /** Consecutive calls return n, n+1, n+2, ..., wrapping at the modulus. */
  lemma {:induction false} Consecutive(count: nat, modulus: nat, k: nat)
    requires count < modulus
    ensures forall i :: 0 <= i < k ==> Issued(count, modulus, k)[i] == (count + i) % modulus
    decreases k
  {
    if k > 0 {
      var next := Next(count, modulus);
      Consecutive(next, modulus, k - 1);
      forall i | 0 <= i < k
        ensures Issued(count, modulus, k)[i] == (count + i) % modulus
      {
        if i == 0 {
          DivModUnique(count, 0, count, modulus);
        } else {
          assert Issued(count, modulus, k)[i] == Issued(next, modulus, k - 1)[i - 1];
          ModShift(count + 1, i - 1, modulus);
          assert count + 1 + (i - 1) == count + i;
        }
      }
    }
  }

  class Counter {
    const modulus: nat
    var count: nat

    ghost predicate Valid()
      reads this
    {
      0 < modulus && count < modulus
    }

    /** A counter starts at 0. */
    constructor (modulus: nat)
      requires 0 < modulus
      ensures Valid()
      ensures this.modulus == modulus && count == 0
    {
      this.modulus := modulus;
      count := 0;
    }

    /** getAndIncrement: returns the count and moves it on by one, wrapping at the modulus. */
    method GetAndIncrement() returns (n: nat)
      requires Valid()
      modifies this
      ensures Valid()
      ensures n == old(count)
      ensures count == Next(old(count), modulus)
    {
      n := count;
      count := (count + 1) % modulus;
    }

    /** reset: back to 0. */
    method Reset()
      requires Valid()
      modifies this
      ensures Valid()
      ensures count == 0
    {
      count := 0;
    }
  }

  /** A new counter hands out 0, 1, 2, and 0 again after a reset. */
  method CountAndReset() returns (a: nat, b: nat, c: nat, d: nat)
    ensures a == 0 && b == 1 && c == 2 && d == 0
  {
    var counter := new Counter(U32);
    a := counter.GetAndIncrement();
    b := counter.GetAndIncrement();
    c := counter.GetAndIncrement();
    counter.Reset();
    d := counter.GetAndIncrement();
  }
}
