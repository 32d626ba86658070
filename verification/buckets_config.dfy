/** Integer buckets (buckets_config.cc): which bucket a value falls in, and the floors that the two kinds of bucket
    configuration produce. Offsets wrap as the widths in the code make them wrap. */
module BucketsConfig {
  import opened Common
  import opened Arithmetic

  const UINT64_SIZE: nat := 0x1_0000_0000_0000_0000
  const INT64_MIN: int := -0x8000_0000_0000_0000
  const INT64_END: int := 0x8000_0000_0000_0000

  type Int64 = v: int | INT64_MIN <= v < INT64_END
  type UInt32 = v: nat | v < UINT32_SIZE

  // ---------------------------------------------------------------- Buckets

  /** The buckets as documented: one for each pair of neighbouring floors, an underflow and an overflow bucket. */
  predicate InBucket(floors: seq<Int64>, v: Int64, j: nat) {
    j <= |floors| && (j > 0 ==> floors[j - 1] <= v) && (j < |floors| ==> v < floors[j])
  }

  predicate NonDecreasing(floors: seq<Int64>) { forall i, j :: 0 <= i < j < |floors| ==> floors[i] <= floors[j] }

  function CountUpTo(floors: seq<Int64>, v: Int64): nat {
    if floors == [] then 0
    else CountUpTo(floors[..|floors| - 1], v) + if floors[|floors| - 1] <= v then 1 else 0
  }

  function BucketFloor(floors: seq<Int64>, index: nat): Int64 {
    if 0 < index <= |floors| then floors[index - 1] else INT64_MIN
  }

  /** The first bucket whose ceiling is above the value; the floors before it are not above the value. */
  predicate IsIndex(floors: seq<Int64>, v: Int64, r: nat) {
    InBucket(floors, v, r) && forall k :: 0 <= k < r ==> floors[k] <= v
  }

  /** BucketIndex: on any floors, sorted or not, the first bucket whose ceiling is above the value. */
  method BucketIndex(floors: seq<Int64>, v: Int64) returns (r: nat)
    requires floors != []
    ensures IsIndex(floors, v, r)
    ensures BucketFloor(floors, r) <= v
  {
    if v < floors[0] {
      return 0;
    }
    for i := 1 to |floors|
      invariant forall k :: 0 <= k < i ==> floors[k] <= v
    {
      if v >= floors[i - 1] && v < floors[i] {
        return i;
      }
    }
    r := |floors|;
  }

  lemma {:induction false} FirstBucketFrom(floors: seq<Int64>, v: Int64, k: nat) returns (r: nat)
    requires k <= |floors| && (k > 0 ==> floors[k - 1] <= v)
    ensures k <= r && InBucket(floors, v, r) && forall i :: k <= i < r ==> floors[i] <= v
    decreases |floors| - k
  {
    if k < |floors| && floors[k] <= v {
      r := FirstBucketFrom(floors, v, k + 1);
    } else {
      r := k;
    }
  }

  /** On any floors the index is a non-decreasing function of the value, and it grows exactly when the value reaches
      the ceiling of its bucket. */
  lemma IndexIsMonotone(floors: seq<Int64>, v: Int64, v': Int64, r: nat, r': nat)
    requires IsIndex(floors, v, r) && IsIndex(floors, v', r') && v <= v'
    ensures r <= r'
    ensures r < r' <==> r < |floors| && floors[r] <= v'
  {
  }

  lemma {:induction false} IndexCounts(floors: seq<Int64>, v: Int64, r: nat)
    requires NonDecreasing(floors) && IsIndex(floors, v, r)
    ensures CountUpTo(floors, v) == r
  {
    if floors != [] {
      var front := floors[..|floors| - 1];
      IndexCounts(front, v, if r == |floors| then r - 1 else r);
    }
  }

  ghost predicate HasBucket(floors: seq<Int64>, v: Int64) { exists j: nat :: InBucket(floors, v, j) }

  /** Every value lies in exactly one bucket. */
  ghost predicate Partition(floors: seq<Int64>) {
    && (forall v: Int64 :: HasBucket(floors, v))
    && (forall v: Int64, i: nat, j: nat :: InBucket(floors, v, i) && InBucket(floors, v, j) ==> i == j)
  }

  lemma OneBucket(floors: seq<Int64>, v: Int64, i: nat, j: nat)
    requires NonDecreasing(floors) && InBucket(floors, v, i) && InBucket(floors, v, j)
    ensures i == j
  {
  }

  lemma TwoBuckets(floors: seq<Int64>, k: nat) returns (v: Int64, i: nat, j: nat)
    requires k + 1 < |floors| && floors[k + 1] < floors[k]
    ensures i != j && InBucket(floors, v, i) && InBucket(floors, v, j)
  {
    v := floors[k + 1];
    i := FirstBucketFrom(floors, v, 0);
    j := FirstBucketFrom(floors, v, k + 2);
  }

  lemma {:induction false} AscendsStepwise(floors: seq<Int64>, i: nat, j: nat)
    requires forall k :: 0 <= k < |floors| - 1 ==> floors[k] <= floors[k + 1]
    requires i <= j < |floors|
    ensures floors[i] <= floors[j]
  {
    if i < j {
      AscendsStepwise(floors, i, j - 1);
      assert floors[j - 1] <= floors[j - 1 + 1];
    }
  }

  /** The buckets partition the values if and only if the floors do not decrease; then the index of a value is the
      number of floors that are not above it. */
  lemma PartitionIff(floors: seq<Int64>)
    ensures NonDecreasing(floors) <==> Partition(floors)
    ensures NonDecreasing(floors) ==> forall v: Int64 :: InBucket(floors, v, CountUpTo(floors, v))
  {
    forall v: Int64
      ensures HasBucket(floors, v)
      ensures NonDecreasing(floors) ==> InBucket(floors, v, CountUpTo(floors, v))
    {
      var r := FirstBucketFrom(floors, v, 0);
      if NonDecreasing(floors) {
        IndexCounts(floors, v, r);
      }
    }
    if NonDecreasing(floors) {
      forall v: Int64, i: nat, j: nat | InBucket(floors, v, i) && InBucket(floors, v, j) ensures i == j {
        OneBucket(floors, v, i, j);
      }
    } else {
      if k :| 0 <= k < |floors| - 1 && floors[k + 1] < floors[k] {
        var v, i, j := TwoBuckets(floors, k);
      } else {
        forall i, j | 0 <= i < j < |floors| ensures floors[i] <= floors[j] {
          AscendsStepwise(floors, i, j);
        }
      }
    }
  }

  // ---------------------------------------------------------------- Linear buckets

  /** The offset of floor i, computed in 32 bits. */
  function LinearOffset(i: nat, step: nat): UInt32 { i * step % UINT32_SIZE }

  ghost predicate LinearFloors(floors: seq<int>, floor: int, buckets: nat, step: nat) {
    |floors| == buckets + 1 && forall i :: 0 <= i <= buckets ==> floors[i] == floor + LinearOffset(i, step)
  }

  /** CreateLinear. The vector's length is computed in 32 bits as well, and overflow of the signed sum is undefined in
      the source language: the precondition excludes just those two. */
  method CreateLinear(floor: Int64, buckets: UInt32, step: UInt32) returns (floors: Option<seq<Int64>>)
    requires buckets + 1 < UINT32_SIZE
    requires forall i :: 0 <= i <= buckets ==> floor + LinearOffset(i, step) < INT64_END
    ensures floors.None? <==> buckets == 0 || step == 0
    ensures floors.Some? ==> LinearFloors(floors.value, floor, buckets, step)
  {
    if buckets == 0 || step == 0 {
      return None;
    }
    var fs: seq<Int64> := [];
    for i := 0 to buckets + 1
      invariant |fs| == i && forall k :: 0 <= k < i ==> fs[k] == floor + LinearOffset(k, step)
    {
      fs := fs + [floor + LinearOffset(i, step)];
    }
    floors := Some(fs);
  }

  /** Where the offset first passes 32 bits, the floors go down. */
  lemma {:induction false} FirstWrap(buckets: nat, step: nat) returns (i: nat)
    requires 0 < step < UINT32_SIZE && UINT32_SIZE <= buckets * step
    ensures 0 < i <= buckets && (i - 1) * step < UINT32_SIZE <= i * step
    decreases buckets
  {
    if (buckets - 1) * step < UINT32_SIZE {
      i := buckets;
    } else {
      i := FirstWrap(buckets - 1, step);
    }
  }

  lemma WrapGoesDown(i: nat, step: nat)
    requires 0 < i && 0 < step < UINT32_SIZE && (i - 1) * step < UINT32_SIZE <= i * step
    ensures LinearOffset(i, step) < LinearOffset(i - 1, step) && LinearOffset(i, step) < i * step
  {
    assert i * step == (i - 1) * step + step;
  }

  /** The floors are the documented ones, and they ascend, if and only if the last offset fits in 32 bits. */
  lemma LinearIff(floors: seq<Int64>, floor: Int64, buckets: nat, step: nat)
    requires LinearFloors(floors, floor, buckets, step) && 0 < step < UINT32_SIZE
    ensures (forall i :: 0 <= i <= buckets ==> floors[i] == floor + i * step) <==> buckets * step < UINT32_SIZE
    ensures NonDecreasing(floors) <==> buckets * step < UINT32_SIZE
  {
    if buckets * step < UINT32_SIZE {
      forall i | 0 <= i <= buckets ensures floors[i] == floor + i * step {
        MultiplyMonotone(i, buckets, step);
      }
      forall i, j | 0 <= i < j <= buckets ensures floors[i] <= floors[j] {
        MultiplyMonotone(i, j, step);
      }
    } else {
      var i := FirstWrap(buckets, step);
      WrapGoesDown(i, step);
      assert floors[i] < floors[i - 1];
    }
  }

  /** Two buckets of 2^31: the second floor is followed by the first one again, and the buckets overlap. */
  lemma LinearWraps()
    ensures LinearFloors([0, 0x8000_0000, 0], 0, 2, 0x8000_0000) && !Partition([0, 0x8000_0000, 0])
  {
    var floors := [0, 0x8000_0000, 0];
    forall i | 0 <= i <= 2 ensures floors[i] == LinearOffset(i, 0x8000_0000) {
      assert i == 0 || i == 1 || i == 2;
    }
    assert floors[2] < floors[1];
    PartitionIff(floors);
  }

  // ---------------------------------------------------------------- Exponential buckets

  /** The documented offset of floor i. */
  function Offset(i: nat, initial: nat, multiplier: nat): nat {
    if i == 0 then 0 else initial * Pow(multiplier, i - 1)
  }

  /** A 64-bit sum read as a signed number. */
  function Signed(x: int): Int64 {
    var y := x % UINT64_SIZE;
    if y < INT64_END then y else y - UINT64_SIZE
  }

  ghost predicate ExponentialFloors(floors: seq<int>, floor: int, buckets: nat, initial: nat, multiplier: nat) {
    |floors| == buckets + 1
    && forall i :: 0 <= i <= buckets ==> floors[i] == Signed(floor + Offset(i, initial, multiplier))
  }

  lemma AddMultiple(x: int, k: int)
    ensures (x + UINT64_SIZE * k) % UINT64_SIZE == x % UINT64_SIZE
  {
  }

  lemma SumOfRemainder(x: int, y: nat)
    ensures Signed(x + y % UINT64_SIZE) == Signed(x + y)
  {
    AddMultiple(x + y % UINT64_SIZE, y / UINT64_SIZE);
  }

  lemma ProductOfRemainder(y: nat, m: nat)
    ensures y % UINT64_SIZE * m % UINT64_SIZE == y * m % UINT64_SIZE
  {
    var q, r := y / UINT64_SIZE, y % UINT64_SIZE;
    assert y * m == r * m + UINT64_SIZE * (q * m);
    AddMultiple(r * m, q * m);
  }

  lemma NextOffset(i: nat, initial: nat, multiplier: nat)
    requires 0 < i
    ensures Offset(i + 1, initial, multiplier) == Offset(i, initial, multiplier) * multiplier
  {
    assert Pow(multiplier, i) == multiplier * Pow(multiplier, i - 1);
    assert initial * (multiplier * Pow(multiplier, i - 1)) == initial * Pow(multiplier, i - 1) * multiplier;
  }

  /** CreateExponential: the running offset and the sum both wrap at 64 bits. */
  method CreateExponential(floor: Int64, buckets: UInt32, initial: UInt32, multiplier: UInt32)
    returns (floors: Option<seq<Int64>>)
    requires buckets + 1 < UINT32_SIZE
    ensures floors.None? <==> buckets == 0 || initial == 0 || multiplier == 0
    ensures floors.Some? ==> ExponentialFloors(floors.value, floor, buckets, initial, multiplier)
  {
    if buckets == 0 || initial == 0 || multiplier == 0 {
      return None;
    }
    var fs: seq<Int64> := [floor];
    var offset: nat := initial;
    for i := 1 to buckets + 1
      invariant |fs| == i && offset == Offset(i, initial, multiplier) % UINT64_SIZE
      invariant forall k :: 0 <= k < i ==> fs[k] == Signed(floor + Offset(k, initial, multiplier))
    {
      SumOfRemainder(floor, Offset(i, initial, multiplier));
      fs := fs + [Signed(floor + offset)];
      NextOffset(i, initial, multiplier);
      ProductOfRemainder(Offset(i, initial, multiplier), multiplier);
      offset := offset * multiplier % UINT64_SIZE;
    }
    floors := Some(fs);
  }

  lemma {:induction false} OffsetsAscend(i: nat, j: nat, initial: nat, multiplier: nat)
    requires i <= j && 0 < multiplier
    ensures Offset(i, initial, multiplier) <= Offset(j, initial, multiplier)
  {
    if i < j && 1 < j {
      OffsetsAscend(i, j - 1, initial, multiplier);
      NextOffset(j - 1, initial, multiplier);
      MultiplyMonotone(1, multiplier, Offset(j - 1, initial, multiplier));
    }
  }

  /** The floors are the documented ones if and only if the last of them is a 64-bit signed number; then they ascend. */
  lemma ExponentialIff(floors: seq<Int64>, floor: Int64, buckets: nat, initial: nat, multiplier: nat)
    requires ExponentialFloors(floors, floor, buckets, initial, multiplier) && 0 < multiplier
    ensures (forall i :: 0 <= i <= buckets ==> floors[i] == floor + Offset(i, initial, multiplier)) <==>
            floor + Offset(buckets, initial, multiplier) < INT64_END
    ensures floor + Offset(buckets, initial, multiplier) < INT64_END ==> NonDecreasing(floors)
  {
    if floor + Offset(buckets, initial, multiplier) < INT64_END {
      forall i | 0 <= i <= buckets ensures floors[i] == floor + Offset(i, initial, multiplier) {
        OffsetsAscend(i, buckets, initial, multiplier);
      }
      forall i, j | 0 <= i < j <= buckets ensures floors[i] <= floors[j] {
        OffsetsAscend(i, j, initial, multiplier);
      }
    } else {
      assert floors[buckets] < INT64_END;
    }
  }

  /** The documented offsets that start at 2^31 and grow by 2^31 each time. */
  lemma LargeOffsets(m: nat)
    requires m == 0x8000_0000
    ensures Offset(0, m, m) == 0 && Offset(1, m, m) == m
    ensures Offset(2, m, m) == 0x4000_0000_0000_0000 && Offset(3, m, m) == 0x2000_0000_0000_0000_0000_0000
  {
    assert Pow(m, 0) == 1;
    assert Pow(m, 1) == m * Pow(m, 0) == m;
    assert Pow(m, 2) == m * Pow(m, 1) == 0x4000_0000_0000_0000;
  }

  /** Three such buckets: the last floor, 2^93, wraps to 0. */
  lemma ExponentialWraps()
    ensures var floors := [0, 0x8000_0000, 0x4000_0000_0000_0000, 0];
            ExponentialFloors(floors, 0, 3, 0x8000_0000, 0x8000_0000) && !Partition(floors)
  {
    var floors: seq<Int64> := [0, 0x8000_0000, 0x4000_0000_0000_0000, 0];
    LargeOffsets(0x8000_0000);
    assert Signed(0x2000_0000_0000_0000_0000_0000) == 0;
    assert Signed(0x4000_0000_0000_0000) == 0x4000_0000_0000_0000;
    assert floors[3] < floors[2];
    PartitionIff(floors);
  }
}
