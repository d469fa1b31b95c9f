/**
 * MemoryMonitor: a running flag, the current and peak byte counts (size_t,
 * so they wrap modulo 2^64), an alert threshold and the registered alert
 * callbacks; TrackedBuffer reports its own size changes to a monitor.
 * Callbacks are modelled by identities, and their invocations are logged.
 */
module MemoryAccounting {
  import opened Bytes

  /** The default alert threshold, 100 MiB. */
  const DefaultThreshold: nat := 100 * 1024 * 1024

  /** size_t addition, modulo 2^64. */
  function AddWrap(a: nat, b: nat): (r: nat)
    ensures r < U64 && (a + b < U64 ==> r == a + b)
  {
    (a + b) % U64
  }

  /** size_t subtraction, modulo 2^64: taking away more than there is wraps to a large value. */
  function SubWrap(a: nat, b: nat): (r: nat)
    ensures r < U64 && (b <= a < U64 ==> r == a - b)
    ensures a < b <= U64 ==> r == U64 + a - b
  {
    (a - b) % U64
  }

  /** Bytes for n elements of elemSize bytes each, as a size_t product. */
  function ByteCount(n: nat, elemSize: nat): (r: nat)
    ensures r < U64
  {
    (n * elemSize) % U64
  }

  /** Freeing what was just allocated restores the count, wrap-around included. */
  lemma AddSubRestores(a: nat, b: nat)
    requires a < U64
    ensures SubWrap(AddWrap(a, b), b) == a
  {
    var q := (a + b) / U64;
    assert AddWrap(a, b) == a + b - q * U64;
    assert (a - q * U64) % U64 == a;
  }

  /** The invocations of each callback, in registration order, with one usage value. */
  function Invocations(callbacks: seq<nat>, usage: nat): (r: seq<(nat, nat)>)
    ensures |r| == |callbacks| && forall i :: 0 <= i < |r| ==> r[i] == (callbacks[i], usage)
  {
    seq(|callbacks|, i requires 0 <= i < |callbacks| => (callbacks[i], usage))
  }

  class MemoryMonitor {
    var isRunning: bool
    var currentMemoryUsage: nat
    var peakMemoryUsage: nat
    var memoryThreshold: nat
    /** The registered callbacks, in registration order. */
    var alertCallbacks: seq<nat>
    /** Each callback invocation: the callback and the usage it was given. */
    var alerts: seq<(nat, nat)>

    ghost predicate Valid()
      reads this
    {
      currentMemoryUsage < U64 && peakMemoryUsage < U64 && memoryThreshold < U64
    }

    /** The peak covers the current usage. */
    ghost predicate PeakCovers()
      reads this
    {
      peakMemoryUsage >= currentMemoryUsage
    }

    constructor ()
      ensures Valid() && PeakCovers() && !isRunning
      ensures currentMemoryUsage == 0 && peakMemoryUsage == 0 && memoryThreshold == DefaultThreshold
      ensures alertCallbacks == [] && alerts == []
    {
      isRunning := false;
      currentMemoryUsage, peakMemoryUsage := 0, 0;
      memoryThreshold := DefaultThreshold;
      alertCallbacks, alerts := [], [];
    }

    /** start: a no-op while running; the monitoring thread is not modelled. */
    method Start()
      modifies this
      ensures isRunning
      ensures currentMemoryUsage == old(currentMemoryUsage) && peakMemoryUsage == old(peakMemoryUsage)
      ensures memoryThreshold == old(memoryThreshold) && alertCallbacks == old(alertCallbacks) && alerts == old(alerts)
    {
      if isRunning {
        return;
      }
      isRunning := true;
    }

    /** stop: a no-op while stopped. */
    method Stop()
      modifies this
      ensures !isRunning
      ensures currentMemoryUsage == old(currentMemoryUsage) && peakMemoryUsage == old(peakMemoryUsage)
      ensures memoryThreshold == old(memoryThreshold) && alertCallbacks == old(alertCallbacks) && alerts == old(alerts)
    {
      if !isRunning {
        return;
      }
      isRunning := false;
    }

    /** trackAllocation: the usage grows by `bytes` and the peak follows it up. */
    method TrackAllocation(bytes: nat)
      requires Valid() && bytes < U64
      modifies this
      ensures Valid() && PeakCovers()
      ensures currentMemoryUsage == AddWrap(old(currentMemoryUsage), bytes)
      ensures peakMemoryUsage == if old(peakMemoryUsage) >= currentMemoryUsage then old(peakMemoryUsage) else currentMemoryUsage
      ensures isRunning == old(isRunning) && memoryThreshold == old(memoryThreshold)
      ensures alertCallbacks == old(alertCallbacks) && alerts == old(alerts)
    {
      currentMemoryUsage := AddWrap(currentMemoryUsage, bytes);
      if currentMemoryUsage > peakMemoryUsage {
        peakMemoryUsage := currentMemoryUsage;
      }
    }

    /**
     * trackDeallocation: the usage drops by `bytes` and the peak stays; the
     * peak still covers the usage when no more than the usage is freed.
     */
    method TrackDeallocation(bytes: nat)
      requires Valid() && bytes < U64
      modifies this
      ensures Valid() && (old(PeakCovers()) && bytes <= old(currentMemoryUsage) ==> PeakCovers())
      ensures currentMemoryUsage == SubWrap(old(currentMemoryUsage), bytes) && peakMemoryUsage == old(peakMemoryUsage)
      ensures isRunning == old(isRunning) && memoryThreshold == old(memoryThreshold)
      ensures alertCallbacks == old(alertCallbacks) && alerts == old(alerts)
    {
      currentMemoryUsage := SubWrap(currentMemoryUsage, bytes);
    }

    method GetCurrentMemoryUsage() returns (r: nat)
      ensures r == currentMemoryUsage
    {
      r := currentMemoryUsage;
    }

    method GetPeakMemoryUsage() returns (r: nat)
      ensures r == peakMemoryUsage
    {
      r := peakMemoryUsage;
    }

    method ResetPeakMemoryUsage()
      modifies this
      ensures PeakCovers() && peakMemoryUsage == currentMemoryUsage
      ensures currentMemoryUsage == old(currentMemoryUsage) && isRunning == old(isRunning)
      ensures memoryThreshold == old(memoryThreshold) && alertCallbacks == old(alertCallbacks) && alerts == old(alerts)
    {
      peakMemoryUsage := currentMemoryUsage;
    }

    method SetMemoryThreshold(bytes: nat)
      modifies this
      ensures memoryThreshold == bytes
      ensures currentMemoryUsage == old(currentMemoryUsage) && peakMemoryUsage == old(peakMemoryUsage)
      ensures isRunning == old(isRunning) && alertCallbacks == old(alertCallbacks) && alerts == old(alerts)
    {
      memoryThreshold := bytes;
    }

    method RegisterAlertCallback(callback: nat)
      modifies this
      ensures alertCallbacks == old(alertCallbacks) + [callback]
      ensures currentMemoryUsage == old(currentMemoryUsage) && peakMemoryUsage == old(peakMemoryUsage)
      ensures isRunning == old(isRunning) && memoryThreshold == old(memoryThreshold) && alerts == old(alerts)
    {
      alertCallbacks := alertCallbacks + [callback];
    }

    /** triggerAlerts: every registered callback, in registration order, is called with `usage`. */
    method TriggerAlerts(usage: nat)
      modifies this
      ensures alerts == old(alerts) + Invocations(alertCallbacks, usage)
      ensures alertCallbacks == old(alertCallbacks) && currentMemoryUsage == old(currentMemoryUsage)
      ensures peakMemoryUsage == old(peakMemoryUsage) && isRunning == old(isRunning) && memoryThreshold == old(memoryThreshold)
    {
      for i := 0 to |alertCallbacks|
        invariant alertCallbacks == old(alertCallbacks) && currentMemoryUsage == old(currentMemoryUsage)
        invariant alerts == old(alerts) + Invocations(alertCallbacks[..i], usage)
        invariant peakMemoryUsage == old(peakMemoryUsage) && isRunning == old(isRunning) && memoryThreshold == old(memoryThreshold)
      {
        assert Invocations(alertCallbacks[..i + 1], usage) == Invocations(alertCallbacks[..i], usage) + [(alertCallbacks[i], usage)];
        alerts := alerts + [(alertCallbacks[i], usage)];
      }
      assert alertCallbacks[..|alertCallbacks|] == alertCallbacks;
    }

    /** The alert check of one turn of the monitoring loop: alerts fire only above the threshold. */
    method CheckUsage()
      modifies this
      ensures alerts == old(alerts) +
        (if old(currentMemoryUsage) > old(memoryThreshold) then Invocations(old(alertCallbacks), old(currentMemoryUsage)) else [])
      ensures alertCallbacks == old(alertCallbacks) && currentMemoryUsage == old(currentMemoryUsage)
      ensures peakMemoryUsage == old(peakMemoryUsage) && isRunning == old(isRunning) && memoryThreshold == old(memoryThreshold)
    {
      var currentUsage := currentMemoryUsage;
      if currentUsage > memoryThreshold {
        TriggerAlerts(currentUsage);
      } else {
        assert alerts == alerts + [];
      }
    }
  }

  /** A vector of `size` elements of `elemSize` bytes whose size changes are reported to a monitor. */
  class TrackedBuffer {
    const monitor: MemoryMonitor
    const elemSize: nat
    var size: nat

    /** Allocates `size` elements and reports their bytes. */
    constructor (monitor: MemoryMonitor, size: nat, elemSize: nat)
      requires monitor.Valid()
      modifies monitor
      ensures this.monitor == monitor && this.elemSize == elemSize && this.size == size
      ensures monitor.Valid() && monitor.PeakCovers()
      ensures monitor.currentMemoryUsage == AddWrap(old(monitor.currentMemoryUsage), ByteCount(size, elemSize))
      ensures monitor.peakMemoryUsage == if old(monitor.peakMemoryUsage) >= monitor.currentMemoryUsage
        then old(monitor.peakMemoryUsage) else monitor.currentMemoryUsage
      ensures monitor.isRunning == old(monitor.isRunning) && monitor.memoryThreshold == old(monitor.memoryThreshold)
      ensures monitor.alertCallbacks == old(monitor.alertCallbacks) && monitor.alerts == old(monitor.alerts)
    {
      this.monitor := monitor;
      this.elemSize := elemSize;
      this.size := size;
      new;
      monitor.TrackAllocation(ByteCount(size, elemSize));
    }

    /** The move constructor: takes the other buffer's elements, reports nothing, and leaves the other empty. */
    constructor Move(other: TrackedBuffer)
      modifies other
      ensures monitor == other.monitor && elemSize == other.elemSize && size == old(other.size) && other.size == 0
    {
      monitor := other.monitor;
      elemSize := other.elemSize;
      size := other.size;
      new;
      other.size := 0;
    }

    /** The destructor: reports the bytes of the current size as freed. */
    method Destroy()
      requires monitor.Valid()
      modifies monitor
      ensures monitor.Valid()
      ensures monitor.currentMemoryUsage == SubWrap(old(monitor.currentMemoryUsage), ByteCount(size, elemSize))
      ensures monitor.peakMemoryUsage == old(monitor.peakMemoryUsage)
      ensures monitor.isRunning == old(monitor.isRunning) && monitor.memoryThreshold == old(monitor.memoryThreshold)
      ensures monitor.alertCallbacks == old(monitor.alertCallbacks) && monitor.alerts == old(monitor.alerts)
    {
      monitor.TrackDeallocation(ByteCount(size, elemSize));
    }

    /**
     * Move assignment: reports this buffer's bytes as freed, then takes the
     * other's elements without reporting them; self-assignment does nothing.
     */
    method MoveAssign(other: TrackedBuffer)
      requires monitor.Valid() && other.monitor == monitor && other.elemSize == elemSize
      modifies this, other, monitor
      ensures monitor.Valid()
      ensures other == this ==> size == old(size) && monitor.currentMemoryUsage == old(monitor.currentMemoryUsage)
      ensures other != this ==>
        size == old(other.size) && other.size == 0 &&
        monitor.currentMemoryUsage == SubWrap(old(monitor.currentMemoryUsage), ByteCount(old(size), elemSize))
      ensures monitor.peakMemoryUsage == old(monitor.peakMemoryUsage)
      ensures monitor.isRunning == old(monitor.isRunning) && monitor.memoryThreshold == old(monitor.memoryThreshold)
      ensures monitor.alertCallbacks == old(monitor.alertCallbacks) && monitor.alerts == old(monitor.alerts)
    {
      if other != this {
        monitor.TrackDeallocation(ByteCount(size, elemSize));
        size := other.size;
        other.size := 0;
      }
    }

    /** resize: exactly the bytes of the size difference are reported, up or down. */
    method Resize(newSize: nat)
      requires monitor.Valid()
      modifies this, monitor
      ensures size == newSize && monitor.Valid()
      ensures newSize > old(size) ==>
        monitor.currentMemoryUsage == AddWrap(old(monitor.currentMemoryUsage), ByteCount(newSize - old(size), elemSize)) &&
        monitor.peakMemoryUsage == if old(monitor.peakMemoryUsage) >= monitor.currentMemoryUsage
          then old(monitor.peakMemoryUsage) else monitor.currentMemoryUsage
      ensures newSize < old(size) ==>
        monitor.currentMemoryUsage == SubWrap(old(monitor.currentMemoryUsage), ByteCount(old(size) - newSize, elemSize)) &&
        monitor.peakMemoryUsage == old(monitor.peakMemoryUsage)
      ensures newSize == old(size) ==>
        monitor.currentMemoryUsage == old(monitor.currentMemoryUsage) && monitor.peakMemoryUsage == old(monitor.peakMemoryUsage)
      ensures monitor.isRunning == old(monitor.isRunning) && monitor.memoryThreshold == old(monitor.memoryThreshold)
      ensures monitor.alertCallbacks == old(monitor.alertCallbacks) && monitor.alerts == old(monitor.alerts)
    {
      var oldSize := size;
      size := newSize;
      if newSize > oldSize {
        monitor.TrackAllocation(ByteCount(newSize - oldSize, elemSize));
      } else if newSize < oldSize {
        monitor.TrackDeallocation(ByteCount(oldSize - newSize, elemSize));
      }
    }

    /** clear: reports the current bytes as freed and empties the buffer. */
    method Clear()
      requires monitor.Valid()
      modifies this, monitor
      ensures size == 0 && monitor.Valid()
      ensures monitor.currentMemoryUsage == SubWrap(old(monitor.currentMemoryUsage), ByteCount(old(size), elemSize))
      ensures monitor.peakMemoryUsage == old(monitor.peakMemoryUsage)
      ensures monitor.isRunning == old(monitor.isRunning) && monitor.memoryThreshold == old(monitor.memoryThreshold)
      ensures monitor.alertCallbacks == old(monitor.alertCallbacks) && monitor.alerts == old(monitor.alerts)
    {
      monitor.TrackDeallocation(ByteCount(size, elemSize));
      size := 0;
    }
  }

  /**
   * A byte buffer's whole life is balanced: created with n bytes, resized
   * to m, destroyed, it leaves the usage where it started, and the peak
   * is the larger of the two sizes.
   */
  method TrackedLifetime(n: nat, m: nat) returns (current: nat, peak: nat)
    requires n < U64 && m < U64
    ensures current == 0 && peak == (if n >= m then n else m)
  {
    LifetimeCounts(n, m);
    var monitor := new MemoryMonitor();
    var b := new TrackedBuffer(monitor, n, 1);
    assert monitor.currentMemoryUsage == n && monitor.peakMemoryUsage == n;
    b.Resize(m);
    assert monitor.currentMemoryUsage == m && monitor.peakMemoryUsage == (if n >= m then n else m);
    b.Destroy();
    current := monitor.currentMemoryUsage;
    peak := monitor.peakMemoryUsage;
  }

  /** The counts a one-byte-element buffer reports over its life, none of them wrapping. */
  lemma LifetimeCounts(n: nat, m: nat)
    requires n < U64 && m < U64
    ensures ByteCount(n, 1) == n && AddWrap(0, n) == n
    ensures m > n ==> AddWrap(n, ByteCount(m - n, 1)) == m
    ensures m < n ==> SubWrap(n, ByteCount(n - m, 1)) == m
    ensures SubWrap(m, ByteCount(m, 1)) == 0
  {
  }
}
