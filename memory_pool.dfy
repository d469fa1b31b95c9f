/**
 * MemoryPool: buffers are handed out by size and taken back into one of
 * three FIFO buckets (small, medium, large) chosen by size thresholds;
 * each bucket takes a buffer only while it holds fewer than maxPoolSize.
 * Counters record fresh allocations and recycled buffers.
 */
module BufferPool {
  import opened Bytes

  const DefaultSmallSize: nat := 1024
  const DefaultMediumSize: nat := 16384
  const DefaultLargeSize: nat := 65536
  const DefaultMaxPoolSize: nat := 100

  /** A shared std::vector<char>: its elements and its capacity. */
  datatype Buffer = Buffer(data: seq<byte>, capacity: nat)

  datatype Category = Small | Medium | Large

  /** The snapshot returned by getStats. */
  datatype Stats = Stats(totalAllocatedMemory: nat, totalBuffersCreated: nat, buffersRecycled: nat,
                         smallBuffersAvailable: nat, mediumBuffersAvailable: nat, largeBuffersAvailable: nat)

  /** The bucket for a size: the thresholds are tried in order, and a size above all three has none. */
  function CategoryOf(size: nat, small: nat, medium: nat, large: nat): (c: Option<Category>)
    ensures c.None? <==> size > small && size > medium && size > large
    ensures c == Some(Small) <==> size <= small
  {
    if size <= small then Some(Small)
    else if size <= medium then Some(Medium)
    else if size <= large then Some(Large)
    else None
  }

  /** With the default thresholds the buckets are the ranges up to 1 KiB, 16 KiB and 64 KiB. */
  lemma DefaultCategories(size: nat)
    ensures var c := CategoryOf(size, DefaultSmallSize, DefaultMediumSize, DefaultLargeSize);
      (c == Some(Small) <==> size <= 1024) &&
      (c == Some(Medium) <==> 1024 < size <= 16384) &&
      (c == Some(Large) <==> 16384 < size <= 65536) &&
      (c == None <==> 65536 < size)
  {
  }

  function Zeros(n: nat): (z: seq<byte>)
    ensures |z| == n && forall i :: 0 <= i < n ==> z[i] == 0
  {
    seq(n, _ => 0)
  }

  /** std::vector::resize: cut to `size`, or padded with zeros; the capacity grows to fit. */
  function Resized(b: Buffer, size: nat): (r: Buffer)
    ensures |r.data| == size && r.capacity >= size && r.capacity >= b.capacity
    ensures size <= |b.data| ==> r.data == b.data[..size]
    ensures size >= |b.data| ==> r.data[..|b.data|] == b.data && forall i :: |b.data| <= i < size ==> r.data[i] == 0
  {
    Buffer(if size <= |b.data| then b.data[..size] else b.data + Zeros(size - |b.data|),
           if size > b.capacity then size else b.capacity)
  }

  /** Every buffer in a bucket was cleared when it went in. */
  predicate Cleared(q: seq<Buffer>)
  {
    forall i :: 0 <= i < |q| ==> q[i].data == []
  }

  class MemoryPool {
    var smallBufferSize: nat
    var mediumBufferSize: nat
    var largeBufferSize: nat
    var maxPoolSize: nat
    var smallBuffers: seq<Buffer>
    var mediumBuffers: seq<Buffer>
    var largeBuffers: seq<Buffer>
    var totalAllocatedMemory: nat
    var totalBuffersCreated: nat
    var buffersRecycled: nat

    ghost predicate Valid()
      reads this
    {
      Cleared(smallBuffers) && Cleared(mediumBuffers) && Cleared(largeBuffers)
    }

    /** No bucket holds more than maxPoolSize buffers. */
    ghost predicate Bounded()
      reads this
    {
      |smallBuffers| <= maxPoolSize && |mediumBuffers| <= maxPoolSize && |largeBuffers| <= maxPoolSize
    }

    function Bucket(c: Category): seq<Buffer>
      reads this
    {
      match c
      case Small => smallBuffers
      case Medium => mediumBuffers
      case Large => largeBuffers
    }

    function Category(size: nat): Option<Category>
      reads this
    {
      CategoryOf(size, smallBufferSize, mediumBufferSize, largeBufferSize)
    }

    /** The defaults: 1 KiB, 16 KiB and 64 KiB thresholds, 100 buffers per bucket, all counters 0. */
    constructor ()
      ensures Valid() && Bounded()
      ensures smallBufferSize == DefaultSmallSize && mediumBufferSize == DefaultMediumSize
      ensures largeBufferSize == DefaultLargeSize && maxPoolSize == DefaultMaxPoolSize
      ensures smallBuffers == [] && mediumBuffers == [] && largeBuffers == []
      ensures totalAllocatedMemory == 0 && totalBuffersCreated == 0 && buffersRecycled == 0
    {
      smallBufferSize, mediumBufferSize, largeBufferSize := DefaultSmallSize, DefaultMediumSize, DefaultLargeSize;
      maxPoolSize := DefaultMaxPoolSize;
      smallBuffers, mediumBuffers, largeBuffers := [], [], [];
      totalAllocatedMemory, totalBuffersCreated, buffersRecycled := 0, 0, 0;
    }

    /**
     * getFromPool: the oldest buffer of the bucket for `size`, removed from
     * it; None when that bucket is empty or the size has no bucket.
     */
    method GetFromPool(size: nat) returns (b: Option<Buffer>)
      requires Valid()
      modifies this
      ensures Valid() && (old(Bounded()) ==> Bounded())
      ensures smallBufferSize == old(smallBufferSize) && mediumBufferSize == old(mediumBufferSize)
      ensures largeBufferSize == old(largeBufferSize) && maxPoolSize == old(maxPoolSize)
      ensures totalAllocatedMemory == old(totalAllocatedMemory) && totalBuffersCreated == old(totalBuffersCreated)
      ensures buffersRecycled == old(buffersRecycled)
      ensures var c := old(Category(size));
        if c.Some? && old(Bucket(c.value)) != [] then
          b == Some(old(Bucket(c.value))[0]) && Bucket(c.value) == old(Bucket(c.value))[1..] &&
          forall k :: k != c.value ==> Bucket(k) == old(Bucket(k))
        else
          b == None && forall k :: Bucket(k) == old(Bucket(k))
    {
      if size <= smallBufferSize {
        if smallBuffers != [] {
          b := Some(smallBuffers[0]);
          smallBuffers := smallBuffers[1..];
          return;
        }
      } else if size <= mediumBufferSize {
        if mediumBuffers != [] {
          b := Some(mediumBuffers[0]);
          mediumBuffers := mediumBuffers[1..];
          return;
        }
      } else if size <= largeBufferSize {
        if largeBuffers != [] {
          b := Some(largeBuffers[0]);
          largeBuffers := largeBuffers[1..];
          return;
        }
      }
      b := None;
    }

    /**
     * getBuffer: a buffer of exactly `size` zero bytes. A pooled buffer is
     * reused when its bucket has one, leaving the counters alone; otherwise
     * a fresh one is allocated and counted.
     */
    method GetBuffer(size: nat) returns (b: Buffer)
      requires Valid()
      modifies this
      ensures Valid() && (old(Bounded()) ==> Bounded())
      ensures b.data == Zeros(size) && b.capacity >= size
      ensures smallBufferSize == old(smallBufferSize) && mediumBufferSize == old(mediumBufferSize)
      ensures largeBufferSize == old(largeBufferSize) && maxPoolSize == old(maxPoolSize)
      ensures buffersRecycled == old(buffersRecycled)
      ensures var c := old(Category(size));
        if c.Some? && old(Bucket(c.value)) != [] then
          b == Resized(old(Bucket(c.value))[0], size) && Bucket(c.value) == old(Bucket(c.value))[1..] &&
          (forall k :: k != c.value ==> Bucket(k) == old(Bucket(k))) &&
          totalAllocatedMemory == old(totalAllocatedMemory) && totalBuffersCreated == old(totalBuffersCreated)
        else
          b == Buffer(Zeros(size), size) && (forall k :: Bucket(k) == old(Bucket(k))) &&
          totalAllocatedMemory == old(totalAllocatedMemory) + size && totalBuffersCreated == old(totalBuffersCreated) + 1
    {
      var pooled := GetFromPool(size);
      if pooled.Some? {
        b := Resized(pooled.value, size);
        return;
      }
      b := Buffer(Zeros(size), size);
      totalAllocatedMemory := totalAllocatedMemory + size;
      totalBuffersCreated := totalBuffersCreated + 1;
    }

    /**
     * recycleBuffer: a null or empty buffer is ignored; otherwise the
     * buffer, cleared, joins the back of the bucket for its capacity when
     * that bucket holds fewer than maxPoolSize, and is counted. A capacity
     * above every threshold is never pooled.
     */
    method RecycleBuffer(buffer: Option<Buffer>)
      requires Valid()
      modifies this
      ensures Valid() && (old(Bounded()) ==> Bounded())
      ensures smallBufferSize == old(smallBufferSize) && mediumBufferSize == old(mediumBufferSize)
      ensures largeBufferSize == old(largeBufferSize) && maxPoolSize == old(maxPoolSize)
      ensures totalAllocatedMemory == old(totalAllocatedMemory) && totalBuffersCreated == old(totalBuffersCreated)
      ensures var c := if buffer.None? || buffer.value.data == [] then None else old(Category(buffer.value.capacity));
        if c.Some? && |old(Bucket(c.value))| < maxPoolSize then
          Bucket(c.value) == old(Bucket(c.value)) + [Buffer([], buffer.value.capacity)] &&
          (forall k :: k != c.value ==> Bucket(k) == old(Bucket(k))) &&
          buffersRecycled == old(buffersRecycled) + 1
        else
          (forall k :: Bucket(k) == old(Bucket(k))) && buffersRecycled == old(buffersRecycled)
    {
      if buffer.None? || buffer.value.data == [] {
        return;
      }
      var size := buffer.value.capacity;
      var cleared := Buffer([], size);
      if size <= smallBufferSize {
        if |smallBuffers| < maxPoolSize {
          smallBuffers := smallBuffers + [cleared];
          buffersRecycled := buffersRecycled + 1;
        }
      } else if size <= mediumBufferSize {
        if |mediumBuffers| < maxPoolSize {
          mediumBuffers := mediumBuffers + [cleared];
          buffersRecycled := buffersRecycled + 1;
        }
      } else if size <= largeBufferSize {
        if |largeBuffers| < maxPoolSize {
          largeBuffers := largeBuffers + [cleared];
          buffersRecycled := buffersRecycled + 1;
        }
      }
    }

    /** getStats: the three counters and the three bucket lengths, nothing changed. */
    method GetStats() returns (s: Stats)
      ensures s.totalAllocatedMemory == totalAllocatedMemory && s.totalBuffersCreated == totalBuffersCreated
      ensures s.buffersRecycled == buffersRecycled && s.smallBuffersAvailable == |Bucket(Small)|
      ensures s.mediumBuffersAvailable == |Bucket(Medium)| && s.largeBuffersAvailable == |Bucket(Large)|
    {
      s := Stats(totalAllocatedMemory, totalBuffersCreated, buffersRecycled,
                 |smallBuffers|, |mediumBuffers|, |largeBuffers|);
    }

    /** setMaxPoolSize: lowering it below a bucket's length leaves that bucket over the new limit. */
    method SetMaxPoolSize(size: nat)
      modifies this
      ensures maxPoolSize == size && Bounded() == (forall k :: |Bucket(k)| <= size)
      ensures smallBufferSize == old(smallBufferSize) && mediumBufferSize == old(mediumBufferSize)
      ensures largeBufferSize == old(largeBufferSize)
      ensures forall k :: Bucket(k) == old(Bucket(k))
      ensures totalAllocatedMemory == old(totalAllocatedMemory) && totalBuffersCreated == old(totalBuffersCreated)
      ensures buffersRecycled == old(buffersRecycled)
    {
      maxPoolSize := size;
      assert Bucket(Small) == smallBuffers && Bucket(Medium) == mediumBuffers && Bucket(Large) == largeBuffers;
    }

    method SetBufferSizes(small: nat, medium: nat, large: nat)
      modifies this
      ensures smallBufferSize == small && mediumBufferSize == medium && largeBufferSize == large
      ensures maxPoolSize == old(maxPoolSize) && forall k :: Bucket(k) == old(Bucket(k))
      ensures totalAllocatedMemory == old(totalAllocatedMemory) && totalBuffersCreated == old(totalBuffersCreated)
      ensures buffersRecycled == old(buffersRecycled)
    {
      smallBufferSize, mediumBufferSize, largeBufferSize := small, medium, large;
    }
  }

  /**
   * Buffers recycled into a bucket come back in the order they went in,
   * without a new allocation; once the bucket is empty the next request
   * allocates.
   */
  method ReuseInOrder() returns (first: Buffer, second: Buffer, third: Buffer, created: nat)
    ensures first == Buffer(Zeros(10), 100) && second == Buffer(Zeros(10), 200)
    ensures third == Buffer(Zeros(10), 10) && created == 1
  {
    var pool := new MemoryPool();
    pool.RecycleBuffer(Some(Buffer([1], 100)));
    pool.RecycleBuffer(Some(Buffer([2, 3], 200)));
    first := pool.GetBuffer(10);
    second := pool.GetBuffer(10);
    third := pool.GetBuffer(10);
    created := pool.totalBuffersCreated;
  }
}
