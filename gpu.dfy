/** GPU telemetry of `ModernSystemMonitor` (pcmonitor.py): choosing a
    provider once (`check_gpu_availability`), reading `nvidia-smi` output,
    counting compute processes, the process-name heuristic used when no
    vendor tool answers, the placeholder readings of the AMD and Intel paths,
    and the dispatch on the chosen provider (`get_gpu_info`).

    Every external call is an input: a `subprocess.run` becomes a
    `ProbeResult`, the `psutil` process scan and memory figures are fields of
    a `HostView`, and each `random.randint` draw is a `Draw` whose ranges the
    generator guarantees. */
module Gpu {
  import opened Wrappers
  import opened PyStr

  /** What one `subprocess.run(..., capture_output=True, text=True, timeout=5)`
      gave: it raised (tool missing, time-out, undecodable output) or the tool
      exited with a return code and printed `stdout`. */
  datatype ProbeResult = Raised | Exited(returnCode: int, stdout: string)

  predicate Succeeded(p: ProbeResult)
  {
    p.Exited? && p.returnCode == 0
  }

  /** The four values `gpu_available` can hold: "nvidia", "amd", "intel",
      "fallback". */
  datatype GpuTag = Nvidia | Amd | Intel | Fallback

  /** One GPU reading, the dictionary every `get_gpu_info_*` returns. */
  datatype GpuReading = GpuReading(
    usage: real,
    memoryUsed: real,
    memoryTotal: real,
    temperature: real,
    processCount: nat)

  const MiB: real := 1048576.0
  const GiB: nat := 1073741824

  // ------------------------------------------------------ provider choice

  /** `check_gpu_availability`: the nvidia-smi probe first; then the wmic
      video-controller listing, where "AMD" is looked for before "Intel". */
  function CheckGpuAvailability(nvidiaProbe: ProbeResult, wmicProbe: ProbeResult): GpuTag
  {
    if Succeeded(nvidiaProbe) then Nvidia
    else if Succeeded(wmicProbe) && Contains(wmicProbe.stdout, "AMD") then Amd
    else if Succeeded(wmicProbe) && Contains(wmicProbe.stdout, "Intel") then Intel
    else Fallback
  }

  /** Each tag is chosen exactly under its own condition, in priority order. */
  lemma ResolutionPriority(nvidiaProbe: ProbeResult, wmicProbe: ProbeResult)
    ensures CheckGpuAvailability(nvidiaProbe, wmicProbe) == Nvidia
      <==> Succeeded(nvidiaProbe)
    ensures CheckGpuAvailability(nvidiaProbe, wmicProbe) == Amd
      <==> !Succeeded(nvidiaProbe) && Succeeded(wmicProbe) && Contains(wmicProbe.stdout, "AMD")
    ensures CheckGpuAvailability(nvidiaProbe, wmicProbe) == Intel
      <==> !Succeeded(nvidiaProbe) && Succeeded(wmicProbe)
           && !Contains(wmicProbe.stdout, "AMD") && Contains(wmicProbe.stdout, "Intel")
    ensures CheckGpuAvailability(nvidiaProbe, wmicProbe) == Fallback
      <==> !Succeeded(nvidiaProbe)
           && (!Succeeded(wmicProbe)
               || (!Contains(wmicProbe.stdout, "AMD") && !Contains(wmicProbe.stdout, "Intel")))
  {
  }

  /** A listing that names both vendors, in either order, resolves to AMD. */
  lemma AmdBeforeIntel(nvidiaProbe: ProbeResult, wmicProbe: ProbeResult, i: nat, j: nat)
    requires !Succeeded(nvidiaProbe) && Succeeded(wmicProbe)
    requires OccursAt(wmicProbe.stdout, "AMD", i) && OccursAt(wmicProbe.stdout, "Intel", j)
    ensures CheckGpuAvailability(nvidiaProbe, wmicProbe) == Amd
  {
    ContainsIffOccurs(wmicProbe.stdout, "AMD");
  }

  // ------------------------------------------------------- nvidia-smi

  /** `get_gpu_process_count`: the non-empty lines of the stripped PID listing,
      0 when the query raised or exited non-zero. */
  function GpuProcessCount(pidQuery: ProbeResult): nat
  {
    if Succeeded(pidQuery) then CountNonEmpty(Split(Strip(pidQuery.stdout), "\n")) else 0
  }

  function CountNonEmpty(lines: seq<string>): (n: nat)
    ensures n <= |lines|
  {
    if lines == [] then 0
    else CountNonEmpty(lines[..|lines| - 1]) + (if lines[|lines| - 1] != "" then 1 else 0)
  }

  lemma {:induction false} CountNonEmptyAll(lines: seq<string>)
    requires forall k :: 0 <= k < |lines| ==> lines[k] != ""
    ensures CountNonEmpty(lines) == |lines|
  {
    if lines != [] {
      CountNonEmptyAll(lines[..|lines| - 1]);
    }
  }

  /** The PIDs listed one per line, with a final line break, split back into
      the PIDs once stripped. */
  lemma PidLinesSplit(pids: seq<string>)
    requires pids != []
    requires forall k :: 0 <= k < |pids| ==> pids[k] != [] && NoSpace(pids[k])
    ensures Split(Strip(Join(pids, "\n") + "\n"), "\n") == pids
  {
    var nl := "\n";
    assert IsSpace(nl[0]);
    forall k | 0 <= k < |pids| ensures pids[k] != [] && nl[0] !in pids[k] {
      NoSpaceLacks(pids[k], nl[0]);
    }
    SplitStrippedJoin(pids, nl, nl);
  }

  /** The listing nvidia-smi prints, one PID per line and a final line break,
      counts exactly the PIDs listed. */
  lemma PidListingCount(pids: seq<string>)
    requires pids != []
    requires forall k :: 0 <= k < |pids| ==> pids[k] != [] && NoSpace(pids[k])
    ensures GpuProcessCount(Exited(0, Join(pids, "\n") + "\n")) == |pids|
  {
    PidLinesSplit(pids);
    CountNonEmptyAll(pids);
  }

  /** Output that is only white space (no compute process running) counts
      nothing, as does a failed or raised query. */
  lemma BlankPidListingCountsNothing(pidQuery: ProbeResult)
    requires Succeeded(pidQuery) ==> forall i :: 0 <= i < |pidQuery.stdout| ==> IsSpace(pidQuery.stdout[i])
    ensures GpuProcessCount(pidQuery) == 0
  {
    if Succeeded(pidQuery) {
      StripAllSpace(pidQuery.stdout);
    }
  }

  /** The four figures of one nvidia-smi line, as printed: utilisation in
      percent, memory used and total in MiB, temperature in degrees. */
  datatype NvidiaFigures = NvidiaFigures(usage: real, usedMiB: real, totalMiB: real, temperature: real)

  /** The parsing step of `get_gpu_info_nvidia`: strip, split on ", ", at
      least four fields, each of the first four accepted by `float()`. */
  function ParseNvidiaOutput(stdout: string): Option<NvidiaFigures>
  {
    var data := Split(Strip(stdout), ", ");
    if |data| < 4 then None
    else
      var usage, used, total, temperature :=
        ParseFloat(data[0]), ParseFloat(data[1]), ParseFloat(data[2]), ParseFloat(data[3]);
      if usage.Some? && used.Some? && total.Some? && temperature.Some? then
        Some(NvidiaFigures(usage.value, used.value, total.value, temperature.value))
      else None
  }

  /** `get_gpu_info_nvidia`: memory converted from MiB to bytes and the
      compute-process count added; when the query raised, exited non-zero or
      its output did not parse, the heuristic reading `fallback` instead. */
  function NvidiaReading(host: HostView, fallback: GpuReading): GpuReading
  {
    if Succeeded(host.smiQuery) then
      match ParseNvidiaOutput(host.smiQuery.stdout)
      case Some(f) =>
        GpuReading(f.usage, f.usedMiB * MiB, f.totalMiB * MiB, f.temperature, GpuProcessCount(host.pidQuery))
      case None => fallback
    else fallback
  }

  /** The line nvidia-smi prints for one GPU, four whole numbers joined by
      ", " and a line break, parses to exactly those four numbers. */
  lemma ParseNvidiaLine(fields: seq<string>)
    requires |fields| == 4 && forall k :: 0 <= k < 4 ==> fields[k] != [] && AllDigits(fields[k])
    ensures ParseNvidiaOutput(Join(fields, ", ") + "\n")
      == Some(NvidiaFigures(DigitsValue(fields[0]) as real, DigitsValue(fields[1]) as real,
                            DigitsValue(fields[2]) as real, DigitsValue(fields[3]) as real))
  {
    forall k | 0 <= k < 4 ensures ", "[0] !in fields[k] {
      DigitsLack(fields[k], ", "[0]);
    }
    assert IsSpace("\n"[0]);
    SplitStrippedJoin(fields, ", ", "\n");
    ParseDigits(fields[0]);
    ParseDigits(fields[1]);
    ParseDigits(fields[2]);
    ParseDigits(fields[3]);
  }

  /** The reading taken from such a line: usage and temperature as printed,
      memory scaled from MiB to bytes, and the compute-process count. */
  lemma NvidiaReadsListing(host: HostView, fields: seq<string>, fallback: GpuReading)
    requires |fields| == 4 && forall k :: 0 <= k < 4 ==> fields[k] != [] && AllDigits(fields[k])
    requires host.smiQuery == Exited(0, Join(fields, ", ") + "\n")
    ensures NvidiaReading(host, fallback).usage == DigitsValue(fields[0]) as real
    ensures NvidiaReading(host, fallback).memoryUsed == DigitsValue(fields[1]) as real * MiB
    ensures NvidiaReading(host, fallback).memoryTotal == DigitsValue(fields[2]) as real * MiB
    ensures NvidiaReading(host, fallback).temperature == DigitsValue(fields[3]) as real
    ensures NvidiaReading(host, fallback).processCount == GpuProcessCount(host.pidQuery)
  {
    ParseNvidiaLine(fields);
  }

  /** The fields of the line used by `NvidiaDoesNotClamp`, and their values. */
  lemma OverfullFields(fields: seq<string>)
    requires fields == ["150", "90", "80", "60"]
    ensures forall k :: 0 <= k < 4 ==> fields[k] != [] && AllDigits(fields[k])
    ensures DigitsValue(fields[0]) == 150 && DigitsValue(fields[1]) == 90 && DigitsValue(fields[2]) == 80
  {
    assert "150"[..2] == "15" && "15"[..1] == "1" && "90"[..1] == "9" && "80"[..1] == "8";
  }

  /** Those fields joined as nvidia-smi prints them. */
  lemma OverfullLine(fields: seq<string>)
    requires fields == ["150", "90", "80", "60"]
    ensures Join(fields, ", ") + "\n" == "150, 90, 80, 60\n"
  {
    assert fields[1..][1..][1..] == ["60"];
    assert Join(fields[1..][1..], ", ") == "80, 60";
    assert Join(fields[1..], ", ") == "90, 80, 60";
  }

  /** nvidia-smi values are taken as printed: nothing clamps usage to 100 or
      memory used to memory total. */
  lemma NvidiaDoesNotClamp(host: HostView, fallback: GpuReading)
    requires host.smiQuery == Exited(0, "150, 90, 80, 60\n")
    ensures NvidiaReading(host, fallback).usage == 150.0
    ensures NvidiaReading(host, fallback).memoryUsed > NvidiaReading(host, fallback).memoryTotal
  {
    var fields := ["150", "90", "80", "60"];
    OverfullFields(fields);
    OverfullLine(fields);
    NvidiaReadsListing(host, fields, fallback);
  }

  /** The parse fails exactly when the stripped output has fewer than four
      ", "-separated fields or one of the first four is not a number. */
  lemma NvidiaParseFailure(stdout: string)
    ensures var data := Split(Strip(stdout), ", ");
      ParseNvidiaOutput(stdout) == None
      <==> |data| < 4 || exists k :: 0 <= k < 4 && ParseFloat(data[k]) == None
  {
    var data := Split(Strip(stdout), ", ");
    if |data| >= 4 && ParseNvidiaOutput(stdout) == None {
      if ParseFloat(data[0]) == None {
        assert ParseFloat(data[0]) == None;
      } else if ParseFloat(data[1]) == None {
        assert ParseFloat(data[1]) == None;
      } else if ParseFloat(data[2]) == None {
        assert ParseFloat(data[2]) == None;
      } else {
        assert ParseFloat(data[3]) == None;
      }
    }
    if |data| >= 4 && exists k :: 0 <= k < 4 && ParseFloat(data[k]) == None {
      var k :| 0 <= k < 4 && ParseFloat(data[k]) == None;
      assert ParseFloat(data[0]).None? || ParseFloat(data[1]).None?
          || ParseFloat(data[2]).None? || ParseFloat(data[3]).None? by {
        assert k == 0 || k == 1 || k == 2 || k == 3;
      }
    }
  }

  /** A first-four field holding a character that is not part of plain
      numeric text (nvidia-smi prints "[N/A]" for a figure the card does not
      report) makes the parse fail. */
  lemma NvidiaRejectsNonNumericField(stdout: string, k: nat, i: nat)
    requires var data := Split(Strip(stdout), ", ");
      k < 4 && k < |data| && i < |data[k]| && !NumericChar(data[k][i])
    ensures ParseNvidiaOutput(stdout) == None
  {
    var data := Split(Strip(stdout), ", ");
    if ParseFloat(data[k]).Some? {
      ParsedTextIsNumeric(data[k]);
    }
    NvidiaParseFailure(stdout);
  }

  /** On a host with two GPUs nvidia-smi prints one line per GPU. Split on
      ", " only, the fourth field is the first GPU's temperature, a line
      break and the second GPU's utilisation, which `float()` rejects: the
      parse fails and the heuristic reading is shown instead. */
  lemma NvidiaTwoGpuListingFails(first: seq<string>, second: seq<string>)
    requires |first| == 4 && forall k :: 0 <= k < 4 ==> first[k] != [] && AllDigits(first[k])
    requires |second| == 4 && forall k :: 0 <= k < 4 ==> second[k] != [] && AllDigits(second[k])
    ensures ParseNvidiaOutput(Join(first, ", ") + "\n" + Join(second, ", ") + "\n") == None
  {
    var parts := first[..3] + [first[3] + "\n" + second[0]] + second[1..];
    JoinGlue(first, "\n", second, ", ");
    forall k | 0 <= k < |parts| ensures parts[k] != [] && ", "[0] !in parts[k] {
      if k < 3 {
        DigitsLack(first[k], ", "[0]);
      } else if k > 3 {
        DigitsLack(second[k - 3], ", "[0]);
      } else {
        DigitsLack(first[3], ", "[0]);
        DigitsLack(second[0], ", "[0]);
      }
    }
    assert parts[0][0] == first[0][0] && parts[6] == second[3];
    assert IsSpace("\n"[0]);
    SplitStrippedJoin(parts, ", ", "\n");
    LineBreakIsNotANumber(first[3], second[0]);
  }

  /** A raised or failed query, or output that does not parse, gives the
      fallback reading. */
  lemma NvidiaFallsBackOnFailure(host: HostView, fallback: GpuReading)
    requires !Succeeded(host.smiQuery) || ParseNvidiaOutput(host.smiQuery.stdout) == None
    ensures NvidiaReading(host, fallback) == fallback
  {
  }

  // ----------------------------------------------- process-name heuristic

  /** One record of `psutil.process_iter(['name', 'memory_percent',
      'cpu_percent'])`; `Vanished` is a process that raised NoSuchProcess or
      AccessDenied while being read, which the scan skips. */
  datatype ProcRecord =
    | Proc(name: Option<string>, memoryPercent: Option<real>, cpuPercent: Option<real>)
    | Vanished

  datatype VirtualMemory = VirtualMemory(used: nat, total: nat)

  /** One random.randint draw for each field of a placeholder reading. */
  datatype Draw = Draw(usage: int, memoryGiB: int, temperature: int, processCount: int)

  /** What the host answers while one GPU reading is taken. `processes` is
      None when the process scan raised, `memory` None when
      `psutil.virtual_memory()` raised. */
  datatype HostView = HostView(
    smiQuery: ProbeResult,
    pidQuery: ProbeResult,
    processes: Option<seq<ProcRecord>>,
    memory: Option<VirtualMemory>,
    amdDraw: Draw,
    intelDraw: Draw,
    lastResortDraw: Draw)

  /** The names of programs that usually draw on the GPU. */
  const GpuProcessPatterns: seq<string> := [
    "chrome", "msedge", "firefox", "steam", "game", "nvidia", "amd",
    "photoshop", "premiere", "afterfx", "davinci", "blender",
    "unity", "unreal", "epic", "fortnite", "valorant", "csgo",
    "obs64", "streamlabs", "discord", "teams", "zoom"]

  /** `any(pattern in name for pattern in patterns)`. */
  predicate MatchesAnyPattern(name: string, patterns: seq<string>)
  {
    exists k :: 0 <= k < |patterns| && Contains(name, patterns[k])
  }

  /** The lowered name, '' when the name is missing or empty. */
  function NameOf(p: ProcRecord): string
    requires p.Proc?
  {
    match p.name
    case Some(n) => Lower(n)
    case None => ""
  }

  predicate CountsAsGpu(p: ProcRecord, patterns: seq<string>)
  {
    p.Proc? && MatchesAnyPattern(NameOf(p), patterns)
  }

  /** `cpu * 0.3 + memory * 2`, missing figures read as 0. */
  function Load(p: ProcRecord): real
    requires p.Proc?
  {
    OrZero(p.cpuPercent) * 0.3 + OrZero(p.memoryPercent) * 2.0
  }

  /** Number of scanned processes that count as GPU-intensive. */
  function MatchedCount(procs: seq<ProcRecord>, patterns: seq<string>): nat
  {
    if procs == [] then 0
    else
      MatchedCount(procs[..|procs| - 1], patterns)
      + (if CountsAsGpu(procs[|procs| - 1], patterns) then 1 else 0)
  }

  /** Sum of `Load` over the processes that count as GPU-intensive. */
  function MatchedLoad(procs: seq<ProcRecord>, patterns: seq<string>): real
  {
    if procs == [] then 0.0
    else
      var p := procs[|procs| - 1];
      MatchedLoad(procs[..|procs| - 1], patterns) + (if CountsAsGpu(p, patterns) then Load(p) else 0.0)
  }

  /** Python's `min(a, b)`: `a` unless `b` is strictly smaller. */
  function Min(a: real, b: real): real
  {
    if b < a then b else a
  }

  /** The random readings of the last-resort branch: usage 5..35, 1..3 GiB
      of 6 GiB, 45..60 degrees, 2..6 processes. */
  predicate LastResortDraw(d: Draw)
  {
    5 <= d.usage <= 35 && 1 <= d.memoryGiB <= 3 && 45 <= d.temperature <= 60 && 2 <= d.processCount <= 6
  }

  /** The AMD placeholder: usage 5..40, 2..4 GiB of 8 GiB, 45..65 degrees,
      3..8 processes. */
  predicate AmdDraw(d: Draw)
  {
    5 <= d.usage <= 40 && 2 <= d.memoryGiB <= 4 && 45 <= d.temperature <= 65 && 3 <= d.processCount <= 8
  }

  /** The Intel placeholder: usage 2..25, 1..2 GiB of 4 GiB, 40..55 degrees,
      2..6 processes. */
  predicate IntelDraw(d: Draw)
  {
    2 <= d.usage <= 25 && 1 <= d.memoryGiB <= 2 && 40 <= d.temperature <= 55 && 2 <= d.processCount <= 6
  }

  predicate DrawsInRange(host: HostView)
  {
    AmdDraw(host.amdDraw) && IntelDraw(host.intelDraw) && LastResortDraw(host.lastResortDraw)
  }

  function PlaceholderReading(d: Draw, totalGiB: nat): GpuReading
    requires d.processCount >= 0
  {
    GpuReading(d.usage as real, (d.memoryGiB * GiB) as real, (totalGiB * GiB) as real,
               d.temperature as real, d.processCount)
  }

  /** The heuristic reading from a completed process scan and the host's
      memory figures. */
  function HeuristicReading(procs: seq<ProcRecord>, patterns: seq<string>, vm: VirtualMemory): GpuReading
  {
    var usage := Min(MatchedLoad(procs, patterns), 100.0);
    GpuReading(usage, vm.used as real * 0.3, vm.total as real * 0.5, 40.0 + usage * 0.4,
               MatchedCount(procs, patterns))
  }

  /** `get_gpu_info_fallback`: the heuristic reading when the process scan
      and the memory figures are available, the random one otherwise. */
  function FallbackReading(host: HostView): GpuReading
    requires LastResortDraw(host.lastResortDraw)
  {
    if host.processes.Some? && host.memory.Some? then
      HeuristicReading(host.processes.value, GpuProcessPatterns, host.memory.value)
    else PlaceholderReading(host.lastResortDraw, 6)
  }

  /** `get_gpu_info_fallback` as the source runs it: one pass over the
      process list, counting and accumulating. */
  method GetGpuInfoFallback(host: HostView) returns (r: GpuReading)
    requires LastResortDraw(host.lastResortDraw)
    ensures r == FallbackReading(host)
  {
    if host.processes.None? || host.memory.None? {
      return PlaceholderReading(host.lastResortDraw, 6);
    }
    var procs := host.processes.value;
    var gpuIntensiveProcesses: nat := 0;
    var totalGpuLoad: real := 0.0;
    var gpuProcessPatterns := GpuProcessPatterns;
    var i := 0;
    while i < |procs|
      invariant 0 <= i <= |procs|
      invariant gpuIntensiveProcesses == MatchedCount(procs[..i], gpuProcessPatterns)
      invariant totalGpuLoad == MatchedLoad(procs[..i], gpuProcessPatterns)
    {
      var p := procs[i];
      assert procs[..i + 1][..i] == procs[..i];
      if p.Proc? {
        var name := if p.name.Some? then Lower(p.name.value) else "";
        var memory := OrZero(p.memoryPercent);
        var cpu := OrZero(p.cpuPercent);
        if MatchesAnyPattern(name, gpuProcessPatterns) {
          gpuIntensiveProcesses := gpuIntensiveProcesses + 1;
          totalGpuLoad := totalGpuLoad + (cpu * 0.3 + memory * 2.0);
        }
      }
      i := i + 1;
    }
    assert procs[..i] == procs;
    var gpuUsage := Min(totalGpuLoad, 100.0);
    var vm := host.memory.value;
    r := GpuReading(gpuUsage, vm.used as real * 0.3, vm.total as real * 0.5, 40.0 + gpuUsage * 0.4,
                    gpuIntensiveProcesses);
  }

  /** A process with no name, or an empty one, never counts: no pattern is
      empty. */
  lemma NamelessProcessNeverCounts(p: ProcRecord)
    requires p.Proc? && (p.name.None? || p.name == Some(""))
    ensures !CountsAsGpu(p, GpuProcessPatterns)
  {
    forall k | 0 <= k < |GpuProcessPatterns| ensures !Contains("", GpuProcessPatterns[k]) {
      NotContainsShort("", GpuProcessPatterns[k]);
    }
  }

  /** The positions in the scan whose process counts as GPU-intensive. */
  ghost function MatchPositions(procs: seq<ProcRecord>, patterns: seq<string>): set<nat>
  {
    set i: nat | i < |procs| && CountsAsGpu(procs[i], patterns)
  }

  lemma MatchPositionsSnoc(procs: seq<ProcRecord>, patterns: seq<string>)
    requires procs != []
    ensures var n := |procs| - 1;
      MatchPositions(procs, patterns)
      == MatchPositions(procs[..n], patterns) + (if CountsAsGpu(procs[n], patterns) then {n} else {})
    ensures |procs| - 1 !in MatchPositions(procs[..|procs| - 1], patterns)
  {
    var n := |procs| - 1;
    forall i: nat | i < n ensures procs[..n][i] == procs[i] { }
  }

  /** The count is the number of positions in the scan whose process counts. */
  lemma {:induction false} MatchedCountIsNumberOfMatches(procs: seq<ProcRecord>, patterns: seq<string>)
    ensures MatchedCount(procs, patterns) == |MatchPositions(procs, patterns)|
  {
    if procs != [] {
      MatchedCountIsNumberOfMatches(procs[..|procs| - 1], patterns);
      MatchPositionsSnoc(procs, patterns);
    }
  }

  /** Scanning two lists one after the other adds up their counts and loads:
      the reading does not depend on where the scan is cut. */
  lemma {:induction false} MatchedAppend(a: seq<ProcRecord>, b: seq<ProcRecord>, patterns: seq<string>)
    ensures MatchedLoad(a + b, patterns) == MatchedLoad(a, patterns) + MatchedLoad(b, patterns)
    ensures MatchedCount(a + b, patterns) == MatchedCount(a, patterns) + MatchedCount(b, patterns)
    decreases |b|
  {
    if b == [] {
      assert a + b == a;
    } else {
      var n := |b| - 1;
      MatchedAppend(a, b[..n], patterns);
      assert (a + b)[..|a + b| - 1] == a + b[..n];
      assert (a + b)[|a + b| - 1] == b[n];
    }
  }

  /** With non-negative cpu and memory percentages the accumulated load is
      non-negative. */
  lemma {:induction false} MatchedLoadNonNegative(procs: seq<ProcRecord>, patterns: seq<string>)
    requires forall k :: 0 <= k < |procs| ==> procs[k].Proc? ==>
      OrZero(procs[k].cpuPercent) >= 0.0 && OrZero(procs[k].memoryPercent) >= 0.0
    ensures MatchedLoad(procs, patterns) >= 0.0
  {
    if procs != [] {
      MatchedLoadNonNegative(procs[..|procs| - 1], patterns);
    }
  }

  lemma {:induction false} MatchedCountBound(procs: seq<ProcRecord>, patterns: seq<string>)
    ensures MatchedCount(procs, patterns) <= |procs|
  {
    if procs != [] {
      MatchedCountBound(procs[..|procs| - 1], patterns);
    }
  }

  /** The heuristic reading: usage at most 100 (and at least 0 when no
      percentage is negative), temperature 40 + 0.4 usage so at most 80 (and
      at least 40), memory used within memory total whenever the host's used
      memory is within its total, and at most one counted process per
      scanned one. */
  lemma HeuristicReadingBounds(procs: seq<ProcRecord>, patterns: seq<string>, vm: VirtualMemory)
    ensures HeuristicReading(procs, patterns, vm).usage <= 100.0
    ensures HeuristicReading(procs, patterns, vm).temperature <= 80.0
    ensures vm.used <= vm.total ==>
      HeuristicReading(procs, patterns, vm).memoryUsed <= HeuristicReading(procs, patterns, vm).memoryTotal
    ensures HeuristicReading(procs, patterns, vm).processCount <= |procs|
    ensures (forall k :: 0 <= k < |procs| ==> procs[k].Proc? ==>
               OrZero(procs[k].cpuPercent) >= 0.0 && OrZero(procs[k].memoryPercent) >= 0.0) ==>
      0.0 <= HeuristicReading(procs, patterns, vm).usage
      && 40.0 <= HeuristicReading(procs, patterns, vm).temperature
  {
    MatchedCountBound(procs, patterns);
    if forall k :: 0 <= k < |procs| ==> procs[k].Proc? ==>
         OrZero(procs[k].cpuPercent) >= 0.0 && OrZero(procs[k].memoryPercent) >= 0.0
    {
      MatchedLoadNonNegative(procs, patterns);
    }
  }

  // ------------------------------------------------------------- dispatch

  /** `get_gpu_info_amd`: a random placeholder. */
  function AmdReading(d: Draw): (r: GpuReading)
    requires AmdDraw(d)
    ensures 5.0 <= r.usage <= 40.0 && 45.0 <= r.temperature <= 65.0
    ensures (2 * GiB) as real <= r.memoryUsed <= (4 * GiB) as real && r.memoryTotal == (8 * GiB) as real
    ensures 3 <= r.processCount <= 8
  {
    PlaceholderReading(d, 8)
  }

  /** `get_gpu_info_intel`: a random placeholder. */
  function IntelReading(d: Draw): (r: GpuReading)
    requires IntelDraw(d)
    ensures 2.0 <= r.usage <= 25.0 && 40.0 <= r.temperature <= 55.0
    ensures (1 * GiB) as real <= r.memoryUsed <= (2 * GiB) as real && r.memoryTotal == (4 * GiB) as real
    ensures 2 <= r.processCount <= 6
  {
    PlaceholderReading(d, 4)
  }

  /** `get_gpu_info`: the reading path named by the tag; "fallback" (and any
      other tag, of which there is none) takes the heuristic. */
  function GetGpuInfo(tag: GpuTag, host: HostView): GpuReading
    requires DrawsInRange(host)
  {
    match tag
    case Nvidia => NvidiaReading(host, FallbackReading(host))
    case Amd => AmdReading(host.amdDraw)
    case Intel => IntelReading(host.intelDraw)
    case Fallback => FallbackReading(host)
  }

  /** Only the nvidia path queries nvidia-smi: for every other tag the
      reading does not depend on what nvidia-smi would print. */
  lemma OnlyNvidiaPathQueriesSmi(tag: GpuTag, host: HostView, smi: ProbeResult, pids: ProbeResult)
    requires DrawsInRange(host) && tag != Nvidia
    ensures GetGpuInfo(tag, host) == GetGpuInfo(tag, host.(smiQuery := smi, pidQuery := pids))
  {
  }

  /** Every reading path except the unclamped nvidia figures reports usage at
      most 100 and keeps memory used within memory total (for the heuristic,
      whenever the host's own memory does). */
  lemma ReadingBounds(tag: GpuTag, host: HostView)
    requires DrawsInRange(host) && tag != Nvidia
    ensures GetGpuInfo(tag, host).usage <= 100.0
    ensures (host.memory.Some? ==> host.memory.value.used <= host.memory.value.total) ==>
      GetGpuInfo(tag, host).memoryUsed <= GetGpuInfo(tag, host).memoryTotal
  {
    if host.processes.Some? && host.memory.Some? {
      HeuristicReadingBounds(host.processes.value, GpuProcessPatterns, host.memory.value);
    }
  }
}
