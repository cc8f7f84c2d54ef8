/**
 * The widget's sampling state: the two rolling histories and the CPU tick
 * snapshot kept between samples, updated by one sampling step at a time.
 * Platform readings arrive as parameters: `None` stands for a host call
 * that did not return KERN_SUCCESS.
 */
module Widget {
  import opened Wrappers
  import opened Usage
  import opened History

  /** The capacity of each history. */
  const MaxHistoryPoints: nat := 20

  /** A recorded CPU sample: a whole percentage, or the -1 of a failed read. */
  predicate IsCpuSample(v: real) {
    v == -1.0 || (0.0 <= v <= 100.0 && v == v.Floor as real)
  }

  predicate AllCpuSamples(h: seq<real>) {
    forall v :: v in h ==> IsCpuSample(v)
  }

  predicate AllNonNegative(h: seq<real>) {
    forall v :: v in h ==> 0.0 <= v
  }

  /** Recording what getCPUUsage returns keeps the CPU history made of CPU samples. */
  lemma AppendCpuSample(h: seq<real>, v: real)
    requires AllCpuSamples(h) && IsCpuSample(v)
    ensures AllCpuSamples(AppendBounded(h, v, MaxHistoryPoints))
  {
    forall x | x in AppendBounded(h, v, MaxHistoryPoints)
      ensures IsCpuSample(x)
    {
      AppendBoundedFrom(h, v, MaxHistoryPoints, x);
    }
  }

  /** Recording a non-negative RAM percentage keeps the RAM history non-negative. */
  lemma AppendRamSample(h: seq<real>, v: real)
    requires AllNonNegative(h) && 0.0 <= v
    ensures AllNonNegative(AppendBounded(h, v, MaxHistoryPoints))
  {
    forall x | x in AppendBounded(h, v, MaxHistoryPoints)
      ensures 0.0 <= x
    {
      AppendBoundedFrom(h, v, MaxHistoryPoints, x);
    }
  }

  class Monitor {
    var cpuHistory: seq<real>
    var ramHistory: seq<real>
    var previousCpuTicks: Ticks

    /**
     * Both histories are within capacity; CPU samples are whole percentages
     * or the -1 of a failed read; RAM samples are non-negative.
     */
    ghost predicate Valid()
      reads this
    {
      |cpuHistory| <= MaxHistoryPoints && |ramHistory| <= MaxHistoryPoints &&
      AllCpuSamples(cpuHistory) && AllNonNegative(ramHistory)
    }

    constructor ()
      ensures Valid()
      ensures cpuHistory == [] && ramHistory == [] && previousCpuTicks == ZeroTicks
    {
      cpuHistory, ramHistory := [], [];
      previousCpuTicks := ZeroTicks;
    }

    /**
     * getCPUUsage: -1 on a failed read, leaving the snapshot alone; otherwise
     * the busy percentage since the stored snapshot, which the reading replaces.
     */
    method GetCpuUsage(reading: Option<Ticks>) returns (usage: int)
      requires reading.Some? ==> Advances(previousCpuTicks, reading.value)
      requires reading.Some? ==> Total(Delta(previousCpuTicks, reading.value)) > 0
      modifies this`previousCpuTicks
      ensures usage == CpuSample(old(previousCpuTicks), reading)
      ensures reading.None? ==> usage == -1 && previousCpuTicks == old(previousCpuTicks)
      ensures reading.Some? ==> previousCpuTicks == reading.value
    {
      if reading.None? {
        return -1;
      }
      var cur := reading.value;
      var d := Delta(previousCpuTicks, cur);
      previousCpuTicks := cur;
      usage := CpuPercent(d);
    }

    /**
     * updateMetrics: record the CPU sample (the -1 of a failed read included),
     * and record the RAM percentage only when the VM statistics were read.
     */
    method UpdateMetrics(cpuReading: Option<Ticks>, vmReading: Option<VmStats>, pageSize: nat, physicalMemory: nat)
      requires Valid()
      requires cpuReading.Some? ==> Advances(previousCpuTicks, cpuReading.value)
      requires cpuReading.Some? ==> Total(Delta(previousCpuTicks, cpuReading.value)) > 0
      requires vmReading.Some? ==> physicalMemory > 0
      modifies this
      ensures Valid()
      ensures cpuHistory == AppendBounded(old(cpuHistory), CpuSample(old(previousCpuTicks), cpuReading) as real, MaxHistoryPoints)
      ensures previousCpuTicks == if cpuReading.Some? then cpuReading.value else old(previousCpuTicks)
      ensures vmReading.None? ==> ramHistory == old(ramHistory)
      ensures vmReading.Some? ==>
        ramHistory == AppendBounded(old(ramHistory), RamPercent(UsedBytes(vmReading.value, pageSize), physicalMemory), MaxHistoryPoints)
    {
      var usage := GetCpuUsage(cpuReading);
      var cpuUsage := usage as real;
      ghost var cpuBefore := cpuHistory;
      cpuHistory := cpuHistory + [cpuUsage];
      if |cpuHistory| > MaxHistoryPoints {
        cpuHistory := cpuHistory[1..];
      }
      assert cpuHistory == AppendBounded(cpuBefore, cpuUsage, MaxHistoryPoints);
      AppendCpuSample(cpuBefore, cpuUsage);

      if vmReading.Some? {
        var stats := vmReading.value;
        var usedPercent := RamPercent(UsedBytes(stats, pageSize), physicalMemory);
        ghost var ramBefore := ramHistory;
        ramHistory := ramHistory + [usedPercent];
        if |ramHistory| > MaxHistoryPoints {
          ramHistory := ramHistory[1..];
        }
        assert ramHistory == AppendBounded(ramBefore, usedPercent, MaxHistoryPoints);
        AppendRamSample(ramBefore, usedPercent);
      }
    }
  }
}
