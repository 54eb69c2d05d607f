/** The state of `ModernSystemMonitor` (pcmonitor.py) that one display tick
    changes: the three chart histories, the last network counters and the
    chosen GPU provider. Tk widgets, labels and the chart drawing are not
    part of this model; every `psutil` figure a tick reads is a parameter. */
module Monitor {
  import opened Wrappers
  import opened Gpu
  import opened History

  /** `(current - last) / 1024`: the KB moved since the previous tick, shown
      as KB/s. Nothing clamps it: a counter that went back (a reset or an
      interface that disappeared) shows a negative rate. */
  function NetRate(current: nat, last: nat): (r: real)
    ensures r < 0.0 <==> current < last
    ensures r == 0.0 <==> current == last
  {
    (current - last) as real / 1024.0
  }

  /** The rates shown for a run of successive counter samples. */
  function Rates(samples: seq<nat>): (rs: seq<real>)
    requires |samples| >= 1
    ensures |rs| == |samples| - 1
  {
    if |samples| == 1 then []
    else
      var n := |samples| - 1;
      Rates(samples[..n]) + [NetRate(samples[n], samples[n - 1])]
  }

  function Sum(rs: seq<real>): real
  {
    if rs == [] then 0.0 else Sum(rs[..|rs| - 1]) + rs[|rs| - 1]
  }

  /** Over any run of ticks the rates shown add up to the counter's total
      movement in KB: nothing is lost or counted twice between ticks, dips
      included. */
  lemma {:induction false} RatesTelescope(samples: seq<nat>)
    requires |samples| >= 1
    ensures Sum(Rates(samples)) == NetRate(samples[|samples| - 1], samples[0])
  {
    if |samples| > 1 {
      var n := |samples| - 1;
      RatesTelescope(samples[..n]);
      assert Rates(samples)[..n - 1] == Rates(samples[..n]);
    }
  }

  /** What one successful tick shows: the GPU reading with its memory
      percentage, and the upload and download rates. */
  datatype Tick = Tick(gpu: GpuReading, gpuMemoryPercent: real, upload: real, download: real)

  class ModernSystemMonitor {
    var cpuHistory: seq<real>
    var gpuHistory: seq<real>
    var memHistory: seq<real>
    var lastNetSent: nat
    var lastNetRecv: nat
    var gpuAvailable: GpuTag

    /** Every history is a full deque of `Capacity` values. */
    ghost predicate Valid()
      reads this
    {
      |cpuHistory| == Capacity && |gpuHistory| == Capacity && |memHistory| == Capacity
    }

    /** `__init__` without the window: the data structures from the
        counters read at start-up, then the provider resolution. */
    constructor(netSent: nat, netRecv: nat, nvidiaProbe: ProbeResult, wmicProbe: ProbeResult)
      ensures Valid()
      ensures cpuHistory == Zeros(Capacity) && gpuHistory == Zeros(Capacity) && memHistory == Zeros(Capacity)
      ensures lastNetSent == netSent && lastNetRecv == netRecv
      ensures gpuAvailable == CheckGpuAvailability(nvidiaProbe, wmicProbe)
    {
      cpuHistory, gpuHistory, memHistory := [], [], [];
      lastNetSent, lastNetRecv := 0, 0;
      gpuAvailable := Fallback;
      new;
      SetupDataStructures(netSent, netRecv);
      gpuAvailable := CheckGpuAvailability(nvidiaProbe, wmicProbe);
    }

    /** `setup_data_structures`: three histories of sixty zeros, and the
        network counters as they stand. */
    method SetupDataStructures(netSent: nat, netRecv: nat)
      modifies this`cpuHistory, this`gpuHistory, this`memHistory, this`lastNetSent, this`lastNetRecv
      ensures Valid()
      ensures cpuHistory == Zeros(Capacity) && gpuHistory == Zeros(Capacity) && memHistory == Zeros(Capacity)
      ensures lastNetSent == netSent && lastNetRecv == netRecv
    {
      cpuHistory := Zeros(Capacity);
      gpuHistory := Zeros(Capacity);
      memHistory := Zeros(Capacity);
      lastNetSent := netSent;
      lastNetRecv := netRecv;
    }

    /** `restart_monitor`: a fresh provider resolution; nothing else changes. */
    method RestartMonitor(nvidiaProbe: ProbeResult, wmicProbe: ProbeResult)
      modifies this`gpuAvailable
      ensures gpuAvailable == CheckGpuAvailability(nvidiaProbe, wmicProbe)
    {
      gpuAvailable := CheckGpuAvailability(nvidiaProbe, wmicProbe);
    }

    /** The network step of `update_display`: the rates since the stored
        counters, then the stored counters overwritten with the current
        ones. */
    method UpdateNetwork(currentSent: nat, currentRecv: nat) returns (upload: real, download: real)
      modifies this`lastNetSent, this`lastNetRecv
      ensures upload == NetRate(currentSent, old(lastNetSent))
      ensures download == NetRate(currentRecv, old(lastNetRecv))
      ensures lastNetSent == currentSent && lastNetRecv == currentRecv
    {
      upload := NetRate(currentSent, lastNetSent);
      download := NetRate(currentRecv, lastNetRecv);
      lastNetSent := currentSent;
      lastNetRecv := currentRecv;
    }

    /** The history step of `update_display`: one append to each series, cpu
        first, then gpu, then mem. */
    method AppendHistory(cpu: real, gpu: real, mem: real)
      requires Valid()
      modifies this`cpuHistory, this`gpuHistory, this`memHistory
      ensures Valid()
      ensures cpuHistory == Append(old(cpuHistory), cpu)
      ensures gpuHistory == Append(old(gpuHistory), gpu)
      ensures memHistory == Append(old(memHistory), mem)
    {
      cpuHistory := Append(cpuHistory, cpu);
      gpuHistory := Append(gpuHistory, gpu);
      memHistory := Append(memHistory, mem);
    }

    /** The state-changing part of `update_display`. The GPU reading comes
        from the chosen provider; its memory percentage divides by the
        reading's memory total, and when that is zero the ZeroDivisionError
        abandons the tick before the network and history steps, leaving the
        state as it was. Otherwise the network counters are diffed and
        overwritten and one value is appended to each history. */
    method UpdateDisplay(cpuUsage: real, memPercent: real, host: HostView, currentSent: nat, currentRecv: nat)
      returns (tick: Option<Tick>)
      requires Valid() && DrawsInRange(host)
      modifies this`cpuHistory, this`gpuHistory, this`memHistory, this`lastNetSent, this`lastNetRecv
      ensures Valid()
      ensures var g := GetGpuInfo(gpuAvailable, host);
        if g.memoryTotal == 0.0 then
          tick == None && unchanged(this)
        else
          && tick == Some(Tick(g, g.memoryUsed / g.memoryTotal * 100.0,
                               NetRate(currentSent, old(lastNetSent)), NetRate(currentRecv, old(lastNetRecv))))
          && lastNetSent == currentSent && lastNetRecv == currentRecv
          && cpuHistory == Append(old(cpuHistory), cpuUsage)
          && gpuHistory == Append(old(gpuHistory), g.usage)
          && memHistory == Append(old(memHistory), memPercent)
    {
      var gpuInfo := GetGpuInfo(gpuAvailable, host);
      if gpuInfo.memoryTotal == 0.0 {
        return None;
      }
      var gpuMemoryPercent := gpuInfo.memoryUsed / gpuInfo.memoryTotal * 100.0;
      var upload, download := UpdateNetwork(currentSent, currentRecv);
      AppendHistory(cpuUsage, gpuInfo.usage, memPercent);
      tick := Some(Tick(gpuInfo, gpuMemoryPercent, upload, download));
    }
  }
}
