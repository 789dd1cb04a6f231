/** Runtime detection for free-threaded Python (runtime_detection.py). The interpreter
    probes it reads (a build configuration variable, whether `sys._is_gil_enabled`
    exists and what it says, and `os.cpu_count()`) and the environment are inputs. */
module Runtime {

  import opened Wrappers
  import opened Text

  /** What the interpreter reports: `sysconfig.get_config_var("Py_GIL_DISABLED")` (absent
      or an integer), whether `sys._is_gil_enabled` exists (Python 3.13 and later) and
      its answer, and `os.cpu_count()`. */
  datatype Probe = Probe(gilDisabledVar: Option<int>, hasGilQuery: bool, gilQuery: bool, cpuCount: Option<nat>)

  /** `is_free_threading_available`: the build was configured without the GIL. */
  function FreeThreadingAvailable(p: Probe): (r: bool)
    ensures r <==> p.gilDisabledVar.Some? && p.gilDisabledVar.value == 1
  {
    p.gilDisabledVar == Some(1)
  }

  /** `is_gil_enabled`: the runtime's answer when it can be asked, otherwise enabled. */
  function GilEnabled(p: Probe): (r: bool)
    ensures !p.hasGilQuery ==> r
    ensures p.hasGilQuery ==> r == p.gilQuery
  {
    if p.hasGilQuery then p.gilQuery else true
  }

  /** `should_use_threads`: exactly on a free-threaded build that can be asked about its
      GIL and says it is off, so an interpreter older than 3.13 never uses threads. */
  function ShouldUseThreads(p: Probe): (r: bool)
    ensures r <==> p.gilDisabledVar == Some(1) && p.hasGilQuery && !p.gilQuery
  {
    FreeThreadingAvailable(p) && !GilEnabled(p)
  }

  /** Python's `max` and `min` on two integers. */
  function Max(a: int, b: int): int { if a >= b then a else b }
  function Min(a: int, b: int): int { if a <= b then a else b }

  /** The `MAX_WORKERS` setting, when it is set, non-empty and reads as an integer. */
  function EnvWorkers(env: map<string, string>): Option<int> {
    if "MAX_WORKERS" in env && env["MAX_WORKERS"] != "" then ParseInt(env["MAX_WORKERS"]) else None
  }

  /** `get_optimal_worker_count`: an explicit count, else a readable `MAX_WORKERS`, each
      raised to at least one but never capped; else the CPU count (four when unknown or
      zero) capped at eight. The result is always at least one. */
  function OptimalWorkerCount(maxWorkers: Option<int>, env: map<string, string>, p: Probe): (r: int)
    ensures r >= 1
    ensures maxWorkers.Some? ==> r >= maxWorkers.value && (maxWorkers.value >= 1 ==> r == maxWorkers.value)
    ensures maxWorkers.None? && EnvWorkers(env).Some? ==> r >= EnvWorkers(env).value && (EnvWorkers(env).value >= 1 ==> r == EnvWorkers(env).value)
    ensures maxWorkers.None? && EnvWorkers(env).None? ==> r <= 8
    ensures maxWorkers.None? && EnvWorkers(env).None? && p.cpuCount.Some? && p.cpuCount.value > 0 ==> r == Min(p.cpuCount.value, 8)
  {
    match maxWorkers
    case Some(n) => Max(1, n)
    case None =>
      match EnvWorkers(env)
      case Some(n) => Max(1, n)
      case None =>
        var cpu := if p.cpuCount.Some? && p.cpuCount.value > 0 then p.cpuCount.value else 4;
        Min(cpu, 8)
  }

  /** An explicit count below one means one, and a large one is kept: the explicit
      count wins over the environment and the CPU count. */
  lemma ExplicitCountWins(n: int, env: map<string, string>, p: Probe, q: Probe)
    ensures OptimalWorkerCount(Some(n), env, p) == OptimalWorkerCount(Some(n), map[], q) == Max(1, n)
    ensures OptimalWorkerCount(Some(0), env, p) == 1 && OptimalWorkerCount(Some(-5), env, p) == 1
    ensures OptimalWorkerCount(Some(16), env, p) == 16
  {
  }

  /** `check_gil_reenablement`: the current status, and whether it went from off to on. */
  function CheckGilReenablement(initial: bool, p: Probe): (r: (bool, bool))
    ensures r.0 == GilEnabled(p)
    ensures r.1 <==> !initial && GilEnabled(p)
  {
    var current := GilEnabled(p);
    (current, !initial && current)
  }

  /** Within one interpreter (both probes agree on whether the GIL can be queried),
      a re-enablement is reported only when the runtime was asked both times and its
      answer changed from off to on; an unchanged runtime never reports one. */
  lemma ReenablementNeedsChange(before: Probe, after: Probe)
    requires before.hasGilQuery == after.hasGilQuery
    ensures CheckGilReenablement(GilEnabled(before), after).1 <==>
      before.hasGilQuery && !before.gilQuery && after.gilQuery
    ensures !CheckGilReenablement(GilEnabled(before), before).1
  {
  }
}
