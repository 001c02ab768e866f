/** The metric helpers of os_win.cpp that are more than a single OS call:
    the process count, found by retrying the enumeration with a doubling
    buffer, and the memory-use percentage, computed in unsigned 64-bit
    integer arithmetic. The OS calls themselves are oracles. */
module Os {
  import opened Wrappers

  /** Size in bytes of a DWORD, the element type of the process-id buffer. */
  const DwordSize: nat := 4
  /** A DWORD holds values below this bound. */
  const DwordModulus: nat := 0x1_0000_0000
  /** Number of process ids the first enumeration makes room for (1024 * 5). */
  const InitialCapacity: nat := 5120
  /** An unsigned 64-bit integer holds values below this bound. */
  const U64Modulus: nat := 0x1_0000_0000_0000_0000

  type U64 = x: int | 0 <= x < U64Modulus

  function Min(a: nat, b: nat): nat { if a <= b then a else b }

  function Pow2(k: nat): (p: nat)
    ensures p >= 1
  {
    if k == 0 then 1 else 2 * Pow2(k - 1)
  }

  // ----------------------------------------------------------------------
  // Process count

  /** What EnumProcesses observes: how many processes exist, and for which
      buffer sizes (in bytes) the call reports failure. */
  datatype ProcessTable = ProcessTable(trueCount: nat, failsFor: nat -> bool)

  /** The EnumProcesses oracle: given a buffer of `cb` bytes it fails, or it
      fills in as many whole process ids as fit and reports the number of
      bytes it wrote. */
  function EnumProcesses(t: ProcessTable, cb: nat): Option<nat>
  {
    if t.failsFor(cb) then None else Some(Min(t.trueCount, cb / DwordSize) * DwordSize)
  }

  /** With a buffer of `max` whole ids, the bytes reported are those of the
      min(trueCount, max) ids written, and they equal the buffer's size
      exactly when there are at least `max` processes. */
  lemma EnumWholeBuffer(t: ProcessTable, max: nat)
    ensures EnumProcesses(t, max * DwordSize)
         == if t.failsFor(max * DwordSize) then None else Some(Min(t.trueCount, max) * DwordSize)
    ensures Min(t.trueCount, max) * DwordSize == max * DwordSize <==> max <= t.trueCount
    ensures (Min(t.trueCount, max) * DwordSize) / DwordSize == Min(t.trueCount, max)
  {
  }

  /** The enumeration with room for `max` ids succeeds and there are at
      least `max` processes, so the buffer comes back full. */
  predicate Fills(t: ProcessTable, max: nat)
  {
    !t.failsFor(max * DwordSize) && max <= t.trueCount
  }

  /** The capacities (in process ids) the search tries when it starts from
      `max`: each one twice the one before, the buffer filled by every one
      but the last, and the last either failing or holding every process. */
  function Attempts(t: ProcessTable, max: nat): (caps: seq<nat>)
    requires max > 0
    ensures |caps| >= 1 && caps[0] == max
    ensures forall k :: 0 <= k < |caps| - 1 ==> caps[k + 1] == 2 * caps[k]
    ensures forall k :: 0 <= k < |caps| - 1 ==> Fills(t, caps[k])
    ensures !Fills(t, caps[|caps| - 1])
    decreases t.trueCount - max
  {
    if Fills(t, max) then [max] + Attempts(t, max * 2) else [max]
  }

  /** Every capacity the search tries is its starting capacity times a power
      of two. */
  lemma {:induction false} AttemptsDouble(t: ProcessTable, max: nat, k: nat)
    requires max > 0
    requires k < |Attempts(t, max)|
    ensures Attempts(t, max)[k] == max * Pow2(k)
  {
    if k > 0 {
      AttemptsDouble(t, max, k - 1);
      var caps := Attempts(t, max);
      assert caps[k] == 2 * caps[k - 1];
      assert caps[k] == 2 * (max * Pow2(k - 1)) == max * (2 * Pow2(k - 1));
    }
  }

  /** process_count_helper with the whole byte size of the buffer passed to
      the enumeration. The count is the true number of processes unless the
      last enumeration failed, in which case it is 0: it is never the
      truncated count of a buffer that was filled. */
  function ProcessCountHelper(t: ProcessTable, max: nat): (count: nat)
    requires max > 0
    ensures var caps := Attempts(t, max);
            count == if t.failsFor(caps[|caps| - 1] * DwordSize) then 0 else t.trueCount
    decreases t.trueCount - max
  {
    EnumWholeBuffer(t, max);
    match EnumProcesses(t, max * DwordSize)
    case None => 0
    case Some(needed) =>
      if max * DwordSize == needed then ProcessCountHelper(t, max * 2)
      else needed / DwordSize
  }

  /** process_count: the search starts with room for 5120 ids. */
  function ProcessCount(t: ProcessTable): (count: nat)
    ensures count == 0 || count == t.trueCount
  {
    ProcessCountHelper(t, InitialCapacity)
  }

  /** With an enumeration that never fails, process_count returns the true
      count, after trying the capacities 5120 * 2^k in turn and stopping at
      the first one larger than the number of processes. */
  lemma ProcessCountExact(t: ProcessTable)
    requires forall cb :: !t.failsFor(cb)
    ensures ProcessCount(t) == t.trueCount
    ensures var caps := Attempts(t, InitialCapacity);
            (forall k :: 0 <= k < |caps| ==> caps[k] == InitialCapacity * Pow2(k)) &&
            (forall k :: 0 <= k < |caps| - 1 ==> caps[k] <= t.trueCount) &&
            t.trueCount < caps[|caps| - 1]
  {
    var caps := Attempts(t, InitialCapacity);
    assert !t.failsFor(caps[|caps| - 1] * DwordSize);
    forall k | 0 <= k < |caps| ensures caps[k] == InitialCapacity * Pow2(k) {
      AttemptsDouble(t, InitialCapacity, k);
    }
  }

  /** process_count_helper as written: the byte size of the buffer is cast to
      a DWORD before it is handed to the enumeration, while the comparison
      with the bytes reported uses the full (64-bit size_t) product. */
  function ProcessCountHelperAsWritten(t: ProcessTable, max: nat): (count: nat)
    requires max > 0
    ensures count <= t.trueCount
    decreases t.trueCount - max
  {
    match EnumProcesses(t, (max * DwordSize) % DwordModulus)
    case None => 0
    case Some(needed) =>
      if max * DwordSize == needed then ProcessCountHelperAsWritten(t, max * 2)
      else needed / DwordSize
  }

  lemma {:induction false} Pow2Monotone(i: nat, j: nat)
    requires i <= j
    ensures Pow2(i) <= Pow2(j)
    decreases j
  {
    if i < j { Pow2Monotone(i, j - 1); }
  }

  /** From 5120 * 2^k up to 5120 * 2^18 every capacity fits a DWORD once
      multiplied by 4 and is filled by 2^30 processes, so the search as
      written doubles all the way to 5120 * 2^18. */
  lemma {:induction false} AsWrittenClimbs(t: ProcessTable, k: nat)
    requires t.trueCount == 0x4000_0000 && forall cb :: !t.failsFor(cb)
    requires k <= 18
    ensures ProcessCountHelperAsWritten(t, InitialCapacity * Pow2(k))
         == ProcessCountHelperAsWritten(t, InitialCapacity * 262144)
    decreases 18 - k
  {
    assert Pow2(12) == 4096;
    if k < 18 {
      Pow2Monotone(k, 17);
      assert Pow2(17) == 131072;
      var max := InitialCapacity * Pow2(k);
      assert max <= 671088640;
      EnumWholeBuffer(t, max);
      assert (max * DwordSize) % DwordModulus == max * DwordSize;
      assert ProcessCountHelperAsWritten(t, max) == ProcessCountHelperAsWritten(t, max * 2);
      assert max * 2 == InitialCapacity * Pow2(k + 1);
      AsWrittenClimbs(t, k + 1);
    } else {
      assert Pow2(18) == 262144;
    }
  }

  /** With 2^30 processes the search as written reaches capacity 5120 * 2^18,
      whose byte size 5 * 2^30 is cut to 2^30 by the DWORD cast; the
      enumeration then fills only 2^28 ids, which no longer matches the
      uncut size, and 2^28 is returned as the count. */
  lemma AsWrittenTruncates(t: ProcessTable)
    requires t.trueCount == 0x4000_0000 && forall cb :: !t.failsFor(cb)
    ensures ProcessCountHelperAsWritten(t, InitialCapacity) == 0x1000_0000
    ensures ProcessCountHelperAsWritten(t, InitialCapacity) != t.trueCount
    ensures ProcessCountHelper(t, InitialCapacity) == t.trueCount
  {
    AsWrittenClimbs(t, 0);
    var top := InitialCapacity * 262144;
    assert (top * DwordSize) % DwordModulus == 0x4000_0000;
    assert EnumProcesses(t, 0x4000_0000) == Some(0x4000_0000);
    ProcessCountExact(t);
  }

  /** While every byte size the search tries fits a DWORD, the cast changes
      nothing and the search as written agrees with the corrected one. */
  lemma {:induction false} AsWrittenAgrees(t: ProcessTable, max: nat)
    requires max > 0 && max * DwordSize < DwordModulus
    requires 2 * t.trueCount * DwordSize < DwordModulus
    ensures ProcessCountHelperAsWritten(t, max) == ProcessCountHelper(t, max)
    decreases t.trueCount - max
  {
    assert (max * DwordSize) % DwordModulus == max * DwordSize;
    EnumWholeBuffer(t, max);
    if Fills(t, max) {
      AsWrittenAgrees(t, max * 2);
    }
  }

  /** For fewer than 2^29 processes, process_count as written returns the
      true count when the enumeration never fails, and 0 or the true count
      in any case. */
  lemma ProcessCountAsWrittenExact(t: ProcessTable)
    requires t.trueCount < 0x2000_0000
    ensures var count := ProcessCountHelperAsWritten(t, InitialCapacity);
            count == 0 || count == t.trueCount
    ensures (forall cb :: !t.failsFor(cb)) ==> ProcessCountHelperAsWritten(t, InitialCapacity) == t.trueCount
  {
    AsWrittenAgrees(t, InitialCapacity);
    if forall cb :: !t.failsFor(cb) {
      ProcessCountExact(t);
    }
  }

  // ----------------------------------------------------------------------
  // Memory use

  /** The two fields of MEMORYSTATUSEX that memory_use_percent reads. */
  datatype MemoryStatus = MemoryStatus(totalPhys: U64, availPhys: U64)

  /** memory_use_percent: 0 when GlobalMemoryStatusEx fails (None), else
      100 minus the integer percentage of available memory, where
      100 * available is an unsigned 64-bit product that wraps. The division
      by the total is unguarded in the source, so a zero total is excluded. */
  function MemoryUsePercent(status: Option<MemoryStatus>): (used: int)
    requires status.Some? ==> status.value.totalPhys > 0
    ensures status.None? ==> used == 0
    ensures status.Some? && status.value.availPhys <= status.value.totalPhys ==> 0 <= used <= 100
  {
    match status
    case None => 0
    case Some(mem) =>
      AvailablePercentBound(mem);
      100 - ((100 * mem.availPhys) % U64Modulus) / mem.totalPhys
  }

  lemma AvailablePercentBound(mem: MemoryStatus)
    requires mem.totalPhys > 0
    ensures 0 <= ((100 * mem.availPhys) % U64Modulus) / mem.totalPhys
    ensures mem.availPhys <= mem.totalPhys ==> ((100 * mem.availPhys) % U64Modulus) / mem.totalPhys <= 100
  {
    var t: nat, a: nat := mem.totalPhys, mem.availPhys;
    var p: nat := (100 * a) % U64Modulus;
    ModAtMost(100 * a, U64Modulus);
    assert p <= 100 * a;
    if a <= t {
      MulAtLeast(t, a, 100);
      assert 100 * a <= 100 * t;
      DivAtMost(p, t, 100);
    }
  }

  lemma ModAtMost(x: nat, m: nat)
    requires m > 0
    ensures x % m <= x
  {
  }

  lemma DivAtMost(p: nat, t: nat, c: nat)
    requires t > 0 && p <= c * t
    ensures p / t <= c
  {
  }

  lemma MulAtLeast(x: int, y: int, z: int)
    requires x >= y && z >= 0
    ensures x * z >= y * z
  {
  }

  /** When 100 * available does not wrap, memory_use_percent is the used
      percentage rounded up: used - 1 < 100 * (total - available) / total <= used. */
  lemma MemoryUseIsCeiling(mem: MemoryStatus)
    requires 0 < mem.totalPhys && mem.availPhys <= mem.totalPhys
    requires 100 * mem.availPhys < U64Modulus
    ensures var used := MemoryUsePercent(Some(mem));
            (used - 1) * mem.totalPhys < 100 * (mem.totalPhys - mem.availPhys) <= used * mem.totalPhys
  {
  }
}
