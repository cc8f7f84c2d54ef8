/**
 * CPU and memory utilisation arithmetic of the widget's sampling step:
 * the busy percentage computed from two cumulative tick snapshots, and the
 * share of physical memory held by active, inactive, wired and compressed pages.
 */
module Usage {
  import opened Wrappers

  /** A host_cpu_load_info snapshot: cumulative ticks spent in each CPU state since boot. */
  datatype Ticks = Ticks(user: nat, system: nat, idle: nat, nice: nat)

  /** The zero-initialised snapshot the widget holds before its first reading. */
  const ZeroTicks: Ticks := Ticks(0, 0, 0, 0)

  /**
   * No counter of `cur` is behind the one in `prev`. The tick deltas are
   * unsigned subtractions that trap when a counter went backwards, so every
   * reading must advance on the stored one.
   */
  predicate Advances(prev: Ticks, cur: Ticks) {
    prev.user <= cur.user && prev.system <= cur.system &&
    prev.idle <= cur.idle && prev.nice <= cur.nice
  }

  /** Ticks elapsed in each state between `prev` and `cur`. */
  function Delta(prev: Ticks, cur: Ticks): (d: Ticks)
    requires Advances(prev, cur)
    ensures prev.user + d.user == cur.user && prev.system + d.system == cur.system
    ensures prev.idle + d.idle == cur.idle && prev.nice + d.nice == cur.nice
  {
    Ticks(cur.user - prev.user, cur.system - prev.system, cur.idle - prev.idle, cur.nice - prev.nice)
  }

  /** Ticks in which the CPU was doing work: user, system and nice. */
  function Busy(d: Ticks): nat {
    d.user + d.system + d.nice
  }

  /** All ticks of the interval, idle included. */
  function Total(d: Ticks): nat {
    d.user + d.system + d.idle + d.nice
  }

  /**
   * Swift's `rounded()` on a Double: the nearest integer, halfway cases
   * rounded away from zero.
   */
  function RoundHalfAway(x: real): (r: int)
    ensures x >= 0.0 ==> r as real - 0.5 <= x < r as real + 0.5
    ensures x < 0.0 ==> r as real - 0.5 < x <= r as real + 0.5
  {
    if x >= 0.0 then (x + 0.5).Floor else -((0.5 - x).Floor)
  }

  /**
   * The busy percentage of an interval, rounded to an integer, computed
   * exactly on integers: r is the integer nearest to 100 * busy / total,
   * with a half rounded up.
   */
  function CpuPercent(d: Ticks): (r: int)
    requires Total(d) > 0
    ensures 0 <= r <= 100
    ensures Total(d) * (2 * r - 1) <= 200 * Busy(d) < Total(d) * (2 * r + 1)
  {
    NearestPercent(Busy(d), Total(d));
    (200 * Busy(d) + Total(d)) / (2 * Total(d))
  }

  /** The bounds behind CpuPercent, stated on the quotient and remainder of the division. */
  lemma NearestPercent(b: nat, t: nat)
    requires 0 < t && b <= t
    ensures var r := (200 * b + t) / (2 * t);
      0 <= r <= 100 && t * (2 * r - 1) <= 200 * b < t * (2 * r + 1)
  {
    var n, m := 200 * b + t, 2 * t;
    var r, rem := n / m, n % m;
    assert n == m * r + rem && 0 <= rem < m;
    assert t * (2 * r - 1) == m * r - t;
    assert t * (2 * r + 1) == m * r + t;
    if r > 100 {
      IntMulMono(101, r, m);
      assert false;
    }
    if r < 0 {
      IntMulMono(r, -1, m);
      assert false;
    }
  }

  /** Multiplying by a positive number keeps a non-strict order. */
  lemma IntMulMono(a: int, b: int, m: int)
    requires a <= b && m > 0
    ensures a * m <= b * m
  {
    assert b * m - a * m == (b - a) * m;
  }

  /** Multiplying by a positive real keeps a strict order. */
  lemma RealMulStrict(a: real, b: real, c: real)
    requires a < b && c > 0.0
    ensures a * c < b * c
  {
    assert b * c - a * c == (b - a) * c;
  }

  /**
   * The integer computation agrees with the source's formula, read over
   * exact reals: round((user + system + nice) / total * 100).
   */
  lemma CpuPercentIsRounded(d: Ticks)
    requires Total(d) > 0
    ensures CpuPercent(d) == RoundHalfAway(Busy(d) as real / Total(d) as real * 100.0)
  {
    var r := CpuPercent(d);
    var x := Busy(d) as real / Total(d) as real * 100.0;
    IntBoundsAsReal(Busy(d), Total(d), r);
    QuotientTimesWhole(Busy(d) as real, Total(d) as real);
    WithinHalf(x, Total(d) as real, Busy(d) as real, r as real);
    RoundingIsUnique(x, r, RoundHalfAway(x));
  }

  /** The integer bounds of CpuPercent, carried over to reals. */
  lemma IntBoundsAsReal(b: int, t: int, r: int)
    requires t * (2 * r - 1) <= 200 * b < t * (2 * r + 1)
    ensures (2.0 * r as real - 1.0) * t as real <= 200.0 * b as real < (2.0 * r as real + 1.0) * t as real
  {
    assert (t * (2 * r - 1)) as real == (2.0 * r as real - 1.0) * t as real;
    assert (t * (2 * r + 1)) as real == (2.0 * r as real + 1.0) * t as real;
  }

  lemma QuotientTimesWhole(b: real, t: real)
    requires t > 0.0
    ensures b / t * 100.0 * t == 100.0 * b
  {
  }

  /** From (2r - 1) t <= 2 x t < (2r + 1) t with t > 0 follows r - 1/2 <= x < r + 1/2. */
  lemma WithinHalf(x: real, t: real, b: real, rx: real)
    requires t > 0.0 && x * t == 100.0 * b
    requires (2.0 * rx - 1.0) * t <= 200.0 * b < (2.0 * rx + 1.0) * t
    ensures rx - 0.5 <= x < rx + 0.5
  {
    if x < rx - 0.5 {
      RealMulStrict(x, rx - 0.5, t);
      assert false;
    }
    if rx + 0.5 < x {
      RealMulStrict(rx + 0.5, x, t);
      assert false;
    } else if rx + 0.5 == x {
      assert false;
    }
  }

  /** At most one integer r satisfies r - 1/2 <= x < r + 1/2, that is, lies in (x - 1/2, x + 1/2]. */
  lemma RoundingIsUnique(x: real, r1: int, r2: int)
    requires r1 as real - 0.5 <= x < r1 as real + 0.5
    requires r2 as real - 0.5 <= x < r2 as real + 0.5
    ensures r1 == r2
  {
  }

  /** Deltas user 30, system 10, idle 55, nice 5 give 45 percent. */
  lemma CpuPercentExample()
    ensures CpuPercent(Ticks(30, 10, 55, 5)) == 45
  {
  }

  /** A CPU with no idle ticks in the interval is reported fully busy. */
  lemma CpuPercentNoIdle(d: Ticks)
    requires Total(d) > 0 && d.idle == 0
    ensures CpuPercent(d) == 100
  {
    var r, t := CpuPercent(d), Total(d);
    if r < 100 {
      IntMulMono(2 * r + 1, 199, t);
      assert false;
    }
  }

  /** A CPU that was idle for the whole interval is reported at zero. */
  lemma CpuPercentAllIdle(d: Ticks)
    requires Total(d) > 0 && Busy(d) == 0
    ensures CpuPercent(d) == 0
  {
    var r, t := CpuPercent(d), Total(d);
    if r > 0 {
      IntMulMono(1, 2 * r - 1, t);
      assert false;
    }
  }

  /**
   * What one getCPUUsage call returns: -1 when the host_statistics call failed,
   * otherwise the busy percentage of the ticks elapsed since `prev`.
   */
  function CpuSample(prev: Ticks, reading: Option<Ticks>): (r: int)
    requires reading.Some? ==> Advances(prev, reading.value) && Total(Delta(prev, reading.value)) > 0
    ensures r == -1 <==> reading.None?
    ensures -1 <= r <= 100
  {
    match reading
    case None => -1
    case Some(cur) => CpuPercent(Delta(prev, cur))
  }

  /** A host_statistics64 VM reading: the page counts that make up used memory. */
  datatype VmStats = VmStats(activeCount: nat, inactiveCount: nat, wireCount: nat, compressorPageCount: nat)

  /** Bytes in use: active, inactive, wired and compressor pages times the page size. */
  function UsedBytes(s: VmStats, pageSize: nat): (r: nat)
    ensures pageSize > 0 ==> (r == 0 <==> s == VmStats(0, 0, 0, 0))
  {
    (s.activeCount + s.inactiveCount + s.wireCount + s.compressorPageCount) * pageSize
  }

  /** Bytes in a gibibyte; both byte counts are converted to this unit before dividing. */
  const GiB: real := 1024.0 * 1024.0 * 1024.0

  /**
   * The RAM percentage as the widget computes it: used and physical memory
   * each converted to GiB, their quotient times 100. The result is the share
   * of physical memory in use, and is at most 100 exactly when the used bytes
   * do not exceed physical memory (it is not clamped here).
   */
  function RamPercent(usedBytes: nat, physicalMemory: nat): (r: real)
    requires physicalMemory > 0
    ensures r * physicalMemory as real == 100.0 * usedBytes as real
    ensures 0.0 <= r
    ensures r <= 100.0 <==> usedBytes <= physicalMemory
  {
    var usedGB := usedBytes as real / GiB;
    var totalMemory := physicalMemory as real / GiB;
    var r := usedGB / totalMemory * 100.0;
    assert usedGB / totalMemory == usedBytes as real / physicalMemory as real;
    ShareAtMostWhole(usedBytes as real, physicalMemory as real, r);
    r
  }

  /** A positive whole p times a percentage r equal to 100 * u: r is at most 100 exactly when u <= p. */
  lemma ShareAtMostWhole(u: real, p: real, r: real)
    requires p > 0.0 && r * p == 100.0 * u
    ensures r <= 100.0 <==> u <= p
  {
    if u <= p && r > 100.0 {
      RealMulStrict(100.0, r, p);
    }
    if u > p && r < 100.0 {
      RealMulStrict(r, 100.0, p);
    }
  }

  /** 8 000 000 000 of 16 000 000 000 bytes in use is 50 percent. */
  lemma RamPercentExample()
    ensures RamPercent(8_000_000_000, 16_000_000_000) == 50.0
  {
  }
}
