/** SortingStatistics: three Java int counters, two long timestamps and the
    algorithm's name.  The counters wrap around at 2^31 as Java ints do, and
    the execution time is a long subtraction, which wraps modulo 2^64 as
    Java longs do. */
module Statistics {

  newtype int32 = x: int | -0x8000_0000 <= x < 0x8000_0000
  newtype int64 = x: int | -0x8000_0000_0000_0000 <= x < 0x8000_0000_0000_0000

  /** n reduced to a Java int: the int32 congruent to n modulo 2^32. */
  function Wrap32(n: int): (r: int32)
    ensures (r as int - n) % 0x1_0000_0000 == 0
    ensures -0x8000_0000 <= n < 0x8000_0000 ==> r as int == n
  {
    var m := n % 0x1_0000_0000;
    if m < 0x8000_0000 then m as int32 else (m - 0x1_0000_0000) as int32
  }

  /** n reduced to a Java long: the int64 congruent to n modulo 2^64. */
  function Wrap64(n: int): (r: int64)
    ensures (r as int - n) % 0x1_0000_0000_0000_0000 == 0
    ensures -0x8000_0000_0000_0000 <= n < 0x8000_0000_0000_0000 ==> r as int == n
  {
    var m := n % 0x1_0000_0000_0000_0000;
    if m < 0x8000_0000_0000_0000 then m as int64 else (m - 0x1_0000_0000_0000_0000) as int64
  }

  /** `x++` on a Java int. */
  function Inc(x: int32): int32 {
    Wrap32(x as int + 1)
  }

  /** An increment adds one below Integer.MAX_VALUE and wraps to
      Integer.MIN_VALUE from it. */
  lemma IncSteps(x: int32)
    ensures x < 0x7fff_ffff ==> Inc(x) as int == x as int + 1
    ensures x == 0x7fff_ffff ==> Inc(x) == -0x8000_0000
  {
  }

  /** endTime - startTime on Java longs. */
  function Elapsed(startTime: int64, endTime: int64): int64 {
    Wrap64(endTime as int - startTime as int)
  }

  /** Between two clock readings that are not negative, the elapsed time is
      their exact difference; from equal readings it is zero. */
  lemma ElapsedExact(startTime: int64, endTime: int64)
    requires 0 <= startTime && 0 <= endTime
    ensures Elapsed(startTime, endTime) as int == endTime as int - startTime as int
    ensures startTime == endTime ==> Elapsed(startTime, endTime) == 0
  {
  }

  class SortingStatistics {
    var comparisons: int32
    var swaps: int32
    var arrayAccesses: int32
    var startTime: int64
    var endTime: int64
    var algorithmName: string

    /** All counters and timestamps zero. */
    predicate Zeroed()
      reads this
    {
      comparisons == 0 && swaps == 0 && arrayAccesses == 0 && startTime == 0 && endTime == 0
    }

    constructor (algorithmName: string)
      ensures this.algorithmName == algorithmName && Zeroed()
    {
      this.algorithmName := algorithmName;
      comparisons, swaps, arrayAccesses := 0, 0, 0;
      startTime, endTime := 0, 0;
    }

    /** reset: everything but the name back to zero. */
    method Reset()
      modifies this
      ensures Zeroed() && algorithmName == old(algorithmName)
    {
      comparisons := 0;
      swaps := 0;
      arrayAccesses := 0;
      startTime := 0;
      endTime := 0;
    }

    /** startTiming, with the clock reading System.currentTimeMillis would
        give passed in. */
    method StartTiming(now: int64)
      modifies this`startTime
      ensures startTime == now
    {
      startTime := now;
    }

    /** endTiming, likewise. */
    method EndTiming(now: int64)
      modifies this`endTime
      ensures endTime == now
    {
      endTime := now;
    }

    method IncrementComparisons()
      modifies this`comparisons
      ensures comparisons == Inc(old(comparisons))
    {
      comparisons := Inc(comparisons);
    }

    method IncrementSwaps()
      modifies this`swaps
      ensures swaps == Inc(old(swaps))
    {
      swaps := Inc(swaps);
    }

    method IncrementArrayAccesses()
      modifies this`arrayAccesses
      ensures arrayAccesses == Inc(old(arrayAccesses))
    {
      arrayAccesses := Inc(arrayAccesses);
    }

    method GetComparisons() returns (n: int32)
      ensures n == comparisons
    {
      n := comparisons;
    }

    method GetSwaps() returns (n: int32)
      ensures n == swaps
    {
      n := swaps;
    }

    method GetArrayAccesses() returns (n: int32)
      ensures n == arrayAccesses
    {
      n := arrayAccesses;
    }

    /** getExecutionTime: endTime - startTime, zero on zeroed statistics. */
    method GetExecutionTime() returns (t: int64)
      ensures t == Elapsed(startTime, endTime)
      ensures Zeroed() ==> t == 0
    {
      t := Wrap64(endTime as int - startTime as int);
    }

    method GetAlgorithmName() returns (name: string)
      ensures name == algorithmName
    {
      name := algorithmName;
    }
  }
}
