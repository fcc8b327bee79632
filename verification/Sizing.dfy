/** How many buckets the table has, and how many entries it lets them index. */
module Sizing {
  import opened Powers

  const HASH_VALUES: nat := 0x1_0000_0000_0000_0000
  const MAX_BUCKETS: nat := 0x1_0000_0000
  const INITIAL_SHIFTS: nat := 62

  type Hash = h: int | 0 <= h < 0x1_0000_0000_0000_0000

  /** 2 to the power 64 - shifts, but at most as many as the 32-bit value index can address. */
  function NumBuckets(shifts: nat): (n: nat)
    requires shifts <= 64
  {
    if Pow2(64 - shifts) <= MAX_BUCKETS then Pow2(64 - shifts) else MAX_BUCKETS
  }

  /**
   The bucket count times 0.8F, truncated. The float 0.8F is 13421773 / 2^24, and its product
   with a power of two is exact.
   */
  function LoadLimit(buckets: nat): nat {
    buckets * 13421773 / 16777216
  }

  /**
   Truncated four fifths of the bucket count, exactly below 2^24 buckets. From there on the
   rounding of the float adds a fifth of a 2^24-th of the bucket count.
   */
  lemma LoadLimitIsFourFifths(buckets: nat)
    ensures LoadLimit(buckets) == (4 * buckets + buckets / 0x100_0000) / 5
    ensures buckets < 0x100_0000 ==> LoadLimit(buckets) == 4 * buckets / 5
    ensures 4 * buckets / 5 <= LoadLimit(buckets) <= 4 * buckets / 5 + 1 + buckets / 0x400_0000
  {
  }

  /** The number of entries above which the table grows. */
  function CapacityOf(buckets: nat): nat {
    if buckets == MAX_BUCKETS then MAX_BUCKETS else LoadLimit(buckets)
  }

  /** The largest shift, that is the smallest bucket count, whose load limit admits `size`. */
  ghost predicate Tight(shifts: nat, size: nat) {
    && 32 <= shifts <= INITIAL_SHIFTS
    && size <= LoadLimit(NumBuckets(shifts))
    && (shifts < INITIAL_SHIFTS ==> LoadLimit(NumBuckets(shifts + 1)) < size)
  }

  lemma LoadLimitMonotone(a: nat, b: nat)
    requires a <= b
    ensures LoadLimit(a) <= LoadLimit(b)
  {
  }

  lemma NumBucketsBounds(shifts: nat)
    requires 32 <= shifts <= INITIAL_SHIFTS
    ensures NumBuckets(shifts) == Pow2(64 - shifts)
    ensures 4 <= NumBuckets(shifts) <= MAX_BUCKETS
    ensures NumBuckets(shifts) == MAX_BUCKETS <==> shifts == 32
  {
    Pow2Values();
    Pow2Monotone(2, 64 - shifts);
    Pow2Monotone(64 - shifts, 32);
    if shifts > 32 { Pow2Monotone(64 - shifts, 31); }
  }

  lemma NumBucketsMonotone(s: nat, t: nat)
    requires s <= t <= 64
    ensures NumBuckets(t) <= NumBuckets(s)
  {
    Pow2Monotone(64 - t, 64 - s);
  }

  /** Below the maximal table the capacity leaves a bucket empty. */
  lemma CapacityBelowBuckets(shifts: nat)
    requires 32 <= shifts <= INITIAL_SHIFTS
    ensures CapacityOf(NumBuckets(shifts)) <= NumBuckets(shifts)
    ensures shifts > 32 ==> CapacityOf(NumBuckets(shifts)) < NumBuckets(shifts)
    ensures LoadLimit(NumBuckets(shifts)) <= CapacityOf(NumBuckets(shifts))
  {
    NumBucketsBounds(shifts);
  }

  /** One doubling always makes room for the entry that overflowed the capacity. */
  lemma OneDoublingSuffices(shifts: nat, size: nat)
    requires 32 < shifts <= INITIAL_SHIFTS && size <= CapacityOf(NumBuckets(shifts)) + 1
    ensures NumBuckets(shifts - 1) == 2 * NumBuckets(shifts)
    ensures size <= CapacityOf(NumBuckets(shifts - 1))
  {
    NumBucketsBounds(shifts);
    NumBucketsBounds(shifts - 1);
  }

  /** The tight shift is the only one: no smaller power of two admits the size. */
  lemma TightIsSmallest(shifts: nat, size: nat, other: nat)
    requires Tight(shifts, size) && other <= INITIAL_SHIFTS
    ensures size <= LoadLimit(NumBuckets(other)) <==> other <= shifts
    ensures Tight(other, size) ==> other == shifts
  {
    if other > shifts {
      NumBucketsMonotone(shifts + 1, other);
      LoadLimitMonotone(NumBuckets(other), NumBuckets(shifts + 1));
    } else {
      NumBucketsMonotone(other, shifts);
      LoadLimitMonotone(NumBuckets(shifts), NumBuckets(other));
      if other < shifts {
        NumBucketsMonotone(other + 1, shifts);
        LoadLimitMonotone(NumBuckets(shifts), NumBuckets(other + 1));
      }
    }
  }

  /** Small tables: 4 buckets for up to 3 entries, 8 for up to 6, 16 for up to 12. */
  lemma SmallTables(shifts: nat, size: nat)
    requires Tight(shifts, size)
    ensures size <= 3 <==> NumBuckets(shifts) == 4
    ensures 3 < size <= 6 <==> NumBuckets(shifts) == 8
    ensures 6 < size <= 12 <==> NumBuckets(shifts) == 16
  {
    TightIsSmallest(shifts, size, 62);
    TightIsSmallest(shifts, size, 61);
    TightIsSmallest(shifts, size, 60);
    if shifts < 61 { NumBucketsMonotone(shifts, 60); }
    if shifts < 60 { NumBucketsMonotone(shifts, 59); }
    SmallBuckets();
    hide NumBuckets;
  }

  lemma SmallBuckets()
    ensures NumBuckets(62) == 4 && NumBuckets(61) == 8 && NumBuckets(60) == 16 && NumBuckets(59) == 32
  {
    assert Pow2(2) == 4 && Pow2(3) == 8 && Pow2(4) == 16 && Pow2(5) == 32;
  }

  /**
   The shift for a number of entries. Above the load limit of the largest bucket count no
   shift is good enough and the search runs down to 0, for which the source's bucket count
   1 << 64 is not defined.
   */
  method CalcShiftsForSize(size: nat) returns (shifts: nat)
    ensures size <= LoadLimit(MAX_BUCKETS) <==> Tight(shifts, size)
    ensures size > LoadLimit(MAX_BUCKETS) <==> shifts == 0
  {
    shifts := INITIAL_SHIFTS;
    while shifts > 0 && LoadLimit(NumBuckets(shifts)) < size
      invariant shifts <= INITIAL_SHIFTS
      invariant shifts < INITIAL_SHIFTS ==> LoadLimit(NumBuckets(shifts + 1)) < size
    {
      shifts := shifts - 1;
    }
    Pow2Values();
    if shifts < 32 {
      NumBucketsMonotone(shifts + 1, 32);
      LoadLimitMonotone(NumBuckets(32), NumBuckets(shifts + 1));
      NumBucketsMonotone(shifts, 32);
    } else {
      NumBucketsBounds(shifts);
      LoadLimitMonotone(NumBuckets(shifts), MAX_BUCKETS);
    }
  }

  /** A hash shifted down is a bucket. */
  lemma HomeInRange(hash: Hash, shifts: nat)
    requires 32 <= shifts <= INITIAL_SHIFTS
    ensures 0 <= hash / Pow2(shifts) < NumBuckets(shifts)
  {
    hide Pow2, NumBuckets;
    NumBucketsBounds(shifts);
    HashBelow(shifts);
    DivBelow(hash, Pow2(shifts), Pow2(64 - shifts));
  }

  lemma HashBelow(shifts: nat)
    requires shifts <= 64
    ensures Pow2(shifts) * Pow2(64 - shifts) == HASH_VALUES
  {
    hide Pow2;
    Pow2Add(shifts, 64 - shifts);
    Pow2Values();
  }
}
