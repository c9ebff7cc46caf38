/** The layout of component columns in a chunk's buffer (src/ECS/EntityComponentStore.cpp:27-47, 139-147). */
module Layout {

  const MemoryOffset: nat := 64
  const MaximumEntitiesPerChunk: nat := 192

  /** Rounded up to whole cache lines. */
  function AlignCacheLine(size: nat): (r: nat)
    ensures size <= r < size + 64 && r % 64 == 0
  {
    (size + 63) / 64 * 64
  }

  lemma AlignMonotone(a: nat, b: nat)
    requires a <= b
    ensures AlignCacheLine(a) <= AlignCacheLine(b)
  {
  }

  lemma {:induction false} TimesMonotone(a: nat, m: nat, n: nat)
    requires m <= n
    ensures a * m <= a * n
  {
  }

  function ArraySize(componentSize: nat, entityCount: nat): nat {
    AlignCacheLine(componentSize * entityCount)
  }

  /** The sizes of the first k components together. */
  function TotalAmong(sizes: seq<nat>, k: nat): nat
    requires k <= |sizes|
  {
    if k == 0 then 0 else TotalAmong(sizes, k - 1) + sizes[k - 1]
  }

  function TotalSize(sizes: seq<nat>): nat {
    TotalAmong(sizes, |sizes|)
  }

  /** The space of the first k columns for that many entities. */
  function SpaceAmong(sizes: seq<nat>, entityCount: nat, k: nat): nat
    requires k <= |sizes|
  {
    if k == 0 then 0 else SpaceAmong(sizes, entityCount, k - 1) + ArraySize(sizes[k - 1], entityCount)
  }

  function SpaceRequirement(sizes: seq<nat>, entityCount: nat): nat {
    SpaceAmong(sizes, entityCount, |sizes|)
  }

  lemma {:induction false} SpaceMonotone(sizes: seq<nat>, m: nat, n: nat, k: nat)
    requires m <= n && k <= |sizes|
    ensures SpaceAmong(sizes, m, k) <= SpaceAmong(sizes, n, k)
  {
    if k > 0 {
      SpaceMonotone(sizes, m, n, k - 1);
      TimesMonotone(sizes[k - 1], m, n);
      AlignMonotone(sizes[k - 1] * m, sizes[k - 1] * n);
    }
  }

  lemma {:induction false} SpaceAtLeastTotal(sizes: seq<nat>, n: nat, k: nat)
    requires k <= |sizes|
    ensures TotalAmong(sizes, k) * n <= SpaceAmong(sizes, n, k)
    ensures n == 0 ==> SpaceAmong(sizes, n, k) == 0
  {
    if k > 0 {
      SpaceAtLeastTotal(sizes, n, k - 1);
      Distribute(TotalAmong(sizes, k - 1), sizes[k - 1], n);
    }
  }

  lemma Distribute(a: nat, b: nat, n: nat)
    ensures (a + b) * n == a * n + b * n
  {
  }

  lemma {:induction false} SpaceGrows(sizes: seq<nat>, n: nat, i: nat, j: nat)
    requires i <= j <= |sizes|
    ensures SpaceAmong(sizes, n, i) <= SpaceAmong(sizes, n, j)
  {
    if i < j { SpaceGrows(sizes, n, i, j - 1); }
  }

  /** More entities than the buffer divided by the total size never fit. */
  lemma TooMany(sizes: seq<nat>, bufferSize: nat, n: nat)
    requires TotalSize(sizes) > 0 && n > bufferSize / TotalSize(sizes)
    ensures SpaceRequirement(sizes, n) > bufferSize
  {
    var total := TotalSize(sizes);
    var q := bufferSize / total;
    assert bufferSize < total * (q + 1);
    assert total * (q + 1) <= total * n;
    SpaceAtLeastTotal(sizes, n, |sizes|);
  }

  method TotalOf(sizes: seq<nat>) returns (total: nat)
    ensures total == TotalSize(sizes)
  {
    total := 0;
    for i := 0 to |sizes|
      invariant total == TotalAmong(sizes, i)
    {
      total := total + sizes[i];
    }
  }

  method CalculateSpaceRequirement(sizes: seq<nat>, entityCount: nat) returns (size: nat)
    ensures size == SpaceRequirement(sizes, entityCount)
  {
    size := 0;
    for i := 0 to |sizes|
      invariant size == SpaceAmong(sizes, entityCount, i)
    {
      size := size + ArraySize(sizes[i], entityCount);
    }
  }

  /** Columns start on cache lines, are pairwise apart, and end inside the buffer. */
  predicate WellLaidOut(sizes: seq<nat>, offsets: seq<nat>, capacity: nat, bufferSize: nat) {
    && |offsets| == |sizes|
    && (forall i :: 0 <= i < |sizes| ==> offsets[i] % 64 == 0 && offsets[i] >= MemoryOffset)
    && (forall i :: 0 <= i < |sizes| ==> offsets[i] + sizes[i] * capacity <= MemoryOffset + bufferSize)
    && (forall i, j :: 0 <= i < j < |sizes| ==> offsets[i] + sizes[i] * capacity <= offsets[j])
  }

  lemma NoSpace(sizes: seq<nat>, n: nat)
    ensures SpaceAmong(sizes, n, 0) == 0
  {
  }

  lemma SpaceStep(sizes: seq<nat>, n: nat, k: nat)
    requires 0 < k <= |sizes|
    ensures SpaceAmong(sizes, n, k) == SpaceAmong(sizes, n, k - 1) + AlignCacheLine(sizes[k - 1] * n)
    ensures SpaceAmong(sizes, n, k) < SpaceAmong(sizes, n, k - 1) + sizes[k - 1] * n + 64
  {
  }

  /** The next whole cache line after a column. */
  lemma LineAfter(offset: nat, size: nat, end: nat)
    requires offset % 64 == 0 && end % 64 == 0 && offset + size <= end
    ensures offset + AlignCacheLine(size) <= end
  {
  }

  /** However the columns are laid out, those before the k-th take their space. */
  lemma {:induction false} TakesSpace(sizes: seq<nat>, offsets: seq<nat>, n: nat, bufferSize: nat, k: nat)
    requires WellLaidOut(sizes, offsets, n, bufferSize) && bufferSize % 64 == 0 && k <= |sizes|
    ensures k < |sizes| ==> MemoryOffset + SpaceAmong(sizes, n, k) <= offsets[k]
    ensures k == |sizes| ==> SpaceAmong(sizes, n, k) <= bufferSize
  {
    hide SpaceAmong, AlignCacheLine;
    if k > 0 {
      TakesSpace(sizes, offsets, n, bufferSize, k - 1);
      SpaceStep(sizes, n, k);
      var size := sizes[k - 1] * n;
      LineAfter(offsets[k - 1], size, if k < |sizes| then offsets[k] else MemoryOffset + bufferSize);
    } else {
      NoSpace(sizes, n);
    }
  }

  /** So a layout for more entities than the rounded columns fit is not possible. */
  lemma NoBetterLayout(sizes: seq<nat>, offsets: seq<nat>, n: nat, bufferSize: nat)
    requires WellLaidOut(sizes, offsets, n, bufferSize) && bufferSize % 64 == 0
    ensures SpaceRequirement(sizes, n) <= bufferSize
  {
    TakesSpace(sizes, offsets, n, bufferSize, |sizes|);
  }

  /** The largest number of entities whose rounded columns fit the buffer. */
  method CalculateChunkCapacity(sizes: seq<nat>, bufferSize: nat) returns (capacity: nat)
    requires TotalSize(sizes) > 0
    ensures forall n: nat :: SpaceRequirement(sizes, n) <= bufferSize <==> n <= capacity
    ensures bufferSize % 64 == 0 ==>
      forall n: nat, offsets :: WellLaidOut(sizes, offsets, n, bufferSize) ==> n <= capacity
  {
    var totalSize := TotalOf(sizes);
    capacity := bufferSize / totalSize;
    forall n: nat | n > capacity ensures SpaceRequirement(sizes, n) > bufferSize {
      TooMany(sizes, bufferSize, n);
    }
    var size := CalculateSpaceRequirement(sizes, capacity);
    while size > bufferSize
      invariant size == SpaceRequirement(sizes, capacity)
      invariant forall n: nat :: n > capacity ==> SpaceRequirement(sizes, n) > bufferSize
      decreases capacity
    {
      SpaceAtLeastTotal(sizes, capacity, |sizes|);
      capacity := capacity - 1;
      size := CalculateSpaceRequirement(sizes, capacity);
    }
    forall n: nat | n <= capacity ensures SpaceRequirement(sizes, n) <= bufferSize {
      SpaceMonotone(sizes, n, capacity, |sizes|);
    }
    forall n: nat, offsets | bufferSize % 64 == 0 && WellLaidOut(sizes, offsets, n, bufferSize) ensures n <= capacity {
      NoBetterLayout(sizes, offsets, n, bufferSize);
    }
  }

  /** The offset loop of createArchetype. */
  method ColumnOffsets(sizes: seq<nat>, capacity: nat) returns (offsets: seq<nat>)
    ensures |offsets| == |sizes|
    ensures forall i :: 0 <= i < |sizes| ==> offsets[i] == MemoryOffset + SpaceAmong(sizes, capacity, i)
  {
    hide ArraySize;
    offsets := [];
    var usedBytes := MemoryOffset;
    var i := 0;
    while i < |sizes|
      invariant 0 <= i <= |sizes| && |offsets| == i
      invariant usedBytes == MemoryOffset + SpaceAmong(sizes, capacity, i)
      invariant forall k :: 0 <= k < i ==> offsets[k] == MemoryOffset + SpaceAmong(sizes, capacity, k)
    {
      offsets := offsets + [usedBytes];
      usedBytes := usedBytes + ArraySize(sizes[i], capacity);
      i := i + 1;
    }
  }

  lemma AlignedSum(a: nat, b: nat)
    requires a % 64 == 0 && b % 64 == 0
    ensures (a + b) % 64 == 0
  {
  }

  lemma {:induction false} SpaceAligned(sizes: seq<nat>, n: nat, k: nat)
    requires k <= |sizes|
    ensures SpaceAmong(sizes, n, k) % 64 == 0
  {
    if k > 0 {
      SpaceAligned(sizes, n, k - 1);
      AlignedSum(SpaceAmong(sizes, n, k - 1), ArraySize(sizes[k - 1], n));
    }
  }

  /** The layout part of createArchetype: the capacity, cut at the maximum, and the column offsets. */
  method LayOut(sizes: seq<nat>, bufferSize: nat) returns (capacity: nat, offsets: seq<nat>)
    requires TotalSize(sizes) > 0
    ensures WellLaidOut(sizes, offsets, capacity, bufferSize)
    ensures capacity <= MaximumEntitiesPerChunk
    ensures capacity < MaximumEntitiesPerChunk ==> SpaceRequirement(sizes, capacity + 1) > bufferSize
    ensures forall n: nat, other :: n <= MaximumEntitiesPerChunk ==>
      bufferSize % 64 == 0 && WellLaidOut(sizes, other, n, bufferSize) ==> n <= capacity
    ensures offsets[0] == MemoryOffset
    ensures forall i :: 0 < i < |sizes| ==> offsets[i] < offsets[i - 1] + sizes[i - 1] * capacity + 64
  {
    hide SpaceAmong, AlignCacheLine;
    capacity := CalculateChunkCapacity(sizes, bufferSize);
    if capacity > MaximumEntitiesPerChunk {
      capacity := MaximumEntitiesPerChunk;
    }
    assert SpaceRequirement(sizes, capacity) <= bufferSize;
    offsets := ColumnOffsets(sizes, capacity);
    NoSpace(sizes, capacity);
    forall i | 0 < i < |sizes| ensures offsets[i] < offsets[i - 1] + sizes[i - 1] * capacity + 64 {
      SpaceStep(sizes, capacity, i);
    }
    Apart(sizes, capacity, bufferSize, offsets);
  }

  /** A column ends where the next may start. */
  lemma ColumnEnds(sizes: seq<nat>, capacity: nat, i: nat)
    requires i < |sizes|
    ensures SpaceAmong(sizes, capacity, i) + sizes[i] * capacity <= SpaceAmong(sizes, capacity, i + 1)
  {
  }

  /** So it ends before the k-th starts, and inside what all take together. */
  lemma EndsBefore(sizes: seq<nat>, capacity: nat, i: nat, k: nat)
    requires i < k <= |sizes|
    ensures SpaceAmong(sizes, capacity, i) + sizes[i] * capacity <= SpaceAmong(sizes, capacity, k)
  {
    hide SpaceAmong;
    ColumnEnds(sizes, capacity, i);
    SpaceGrows(sizes, capacity, i + 1, k);
  }

  lemma Aligned(offset: nat, space: nat)
    requires offset == MemoryOffset + space && space % 64 == 0
    ensures offset % 64 == 0
  {
  }

  lemma Apart(sizes: seq<nat>, capacity: nat, bufferSize: nat, offsets: seq<nat>)
    requires SpaceRequirement(sizes, capacity) <= bufferSize && |offsets| == |sizes|
    requires forall i :: 0 <= i < |sizes| ==> offsets[i] == MemoryOffset + SpaceAmong(sizes, capacity, i)
    ensures WellLaidOut(sizes, offsets, capacity, bufferSize)
  {
    hide SpaceAmong;
    forall i | 0 <= i < |sizes|
      ensures offsets[i] % 64 == 0 && offsets[i] + sizes[i] * capacity <= MemoryOffset + bufferSize
    {
      SpaceAligned(sizes, capacity, i);
      Aligned(offsets[i], SpaceAmong(sizes, capacity, i));
      EndsBefore(sizes, capacity, i, |sizes|);
    }
    forall i, j | 0 <= i < j < |sizes| ensures offsets[i] + sizes[i] * capacity <= offsets[j] {
      EndsBefore(sizes, capacity, i, j);
    }
  }
}
