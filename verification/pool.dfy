/** The processing pool manager (pool_manager.py) as decisions: how many workers, which
    executor kind, when the work runs inline, and what the inline `submit` and `map`
    return. Real executors and their scheduling are not modelled; an executor is
    represented by its kind. */
module Pool {

  import opened Wrappers
  import opened Text
  import opened Runtime

  datatype ExecutorKind = Sequential | Thread | Process

  /** The manager: its worker count, the sequential flag, the forced executor kind
      string, the live executor (by kind) if any, the chosen kind, and the GIL status
      at construction. */
  datatype Manager = Manager(
    maxWorkers: int,
    useSequential: bool,
    force: Option<string>,
    executor: Option<ExecutorKind>,
    executorType: Option<ExecutorKind>,
    initialGil: bool)

  /** `__init__`: a missing or zero worker count is replaced by the optimal count; no
      executor exists yet. */
  function NewManager(maxWorkers: Option<int>, useSequential: bool, force: Option<string>,
                      env: map<string, string>, p: Probe): (m: Manager)
    ensures m.executor.None? && m.executorType.None?
    ensures m.useSequential == useSequential && m.force == force && m.initialGil == GilEnabled(p)
    ensures maxWorkers.Some? && maxWorkers.value != 0 ==> m.maxWorkers == maxWorkers.value
    ensures (maxWorkers.None? || maxWorkers.value == 0) ==> m.maxWorkers >= 1
  {
    var n := if maxWorkers.Some? && maxWorkers.value != 0 then maxWorkers.value else OptimalWorkerCount(None, env, p);
    Manager(n, useSequential, force, None, None, GilEnabled(p))
  }

  /** `PARALLEL_INDEXING_ENABLED` set to false, 0 or no, in any letter case. */
  predicate ParallelDisabled(env: map<string, string>) {
    "PARALLEL_INDEXING_ENABLED" in env && Lower(env["PARALLEL_INDEXING_ENABLED"]) in {"false", "0", "no"}
  }

  /** The executor kind `_initialize_executor` picks. */
  function ChosenKind(m: Manager, env: map<string, string>, p: Probe): (k: ExecutorKind)
    ensures k == Sequential <==> m.useSequential || ParallelDisabled(env)
    ensures k != Sequential && m.force.Some? && m.force.value != "" ==> (k == Thread <==> Lower(m.force.value) == "thread")
    ensures k != Sequential && (m.force.None? || m.force.value == "") ==> (k == Thread <==> ShouldUseThreads(p))
  {
    if m.useSequential || ParallelDisabled(env) then Sequential
    else
      var useThreads := if m.force.Some? && m.force.value != "" then Lower(m.force.value) == "thread" else ShouldUseThreads(p);
      if useThreads then Thread else Process
  }

  /** `__enter__`: the sequential decision sticks and creates no executor; otherwise an
      executor of the chosen kind is created, which the standard library refuses with
      `ValueError` for a worker count below one. */
  function Enter(m: Manager, env: map<string, string>, p: Probe): (r: Result<Manager, string>)
    ensures r.Ok? ==> r.value.executorType == Some(ChosenKind(m, env, p))
    ensures r.Ok? ==> (r.value.executor.None? <==> ChosenKind(m, env, p) == Sequential)
    ensures r.Ok? ==> (r.value.useSequential <==> ChosenKind(m, env, p) == Sequential)
    ensures r.Err? <==> ChosenKind(m, env, p) != Sequential && m.maxWorkers < 1
    ensures r.Ok? ==> r.value.maxWorkers == m.maxWorkers && r.value.force == m.force
  {
    var kind := ChosenKind(m, env, p);
    if kind == Sequential then Ok(m.(useSequential := true, executorType := Some(Sequential), executor := None))
    else if m.maxWorkers < 1 then Err("max_workers must be greater than 0")
    else Ok(m.(executorType := Some(kind), executor := Some(kind)))
  }

  /** `__exit__`: the executor is shut down and dropped; nothing else changes. */
  function Exit(m: Manager): (r: Manager)
    ensures r.executor.None? && r == m.(executor := None)
  {
    m.(executor := None)
  }

  /** Whether a call runs inline. */
  predicate Inline(m: Manager) {
    m.useSequential || m.executor.None?
  }

  /** A future: already completed with a result or an exception, or handed to an
      executor of the given kind. */
  datatype Future<T> = Completed(outcome: Result<T, string>) | Scheduled(on: ExecutorKind)

  /** `submit`, given what the call returns or raises: inline, the future is already
      completed with exactly that outcome, so a raising call does not raise here. */
  function Submit<T>(m: Manager, call: Result<T, string>): (f: Future<T>)
    ensures Inline(m) ==> f.Completed? && f.outcome == call
    ensures !Inline(m) ==> f == Scheduled(m.executor.value)
  {
    if Inline(m) then Completed(call) else Scheduled(m.executor.value)
  }

  /** `map` inline: the built-in `map`, one result per item in the items' order. */
  function MapInline<A, B>(f: A -> B, xs: seq<A>): (r: seq<B>)
    ensures |r| == |xs| && forall i :: 0 <= i < |xs| ==> r[i] == f(xs[i])
    decreases |xs|
  {
    if |xs| == 0 then [] else [f(xs[0])] + MapInline(f, xs[1..])
  }

  /** Mapping a concatenation maps each part in turn: the order of the items is kept. */
  lemma {:induction false} MapInlineAppend<A, B>(f: A -> B, xs: seq<A>, ys: seq<A>)
    ensures MapInline(f, xs + ys) == MapInline(f, xs) + MapInline(f, ys)
    decreases |xs|
  {
    if |xs| > 0 {
      assert (xs + ys)[1..] == xs[1..] + ys;
      MapInlineAppend(f, xs[1..], ys);
    }
  }

  /** The sequential threshold: the argument, else `MIN_FILES_FOR_PARALLEL` (default
      "50"), which must read as an integer or `int` raises `ValueError`. */
  function Threshold(minItems: Option<int>, env: map<string, string>): (r: Option<int>)
    ensures minItems.Some? ==> r == minItems
    ensures minItems.None? && "MIN_FILES_FOR_PARALLEL" !in env ==> r == Some(50)
    ensures minItems.None? && "MIN_FILES_FOR_PARALLEL" in env ==>
      (r.None? <==> ParseInt(env["MIN_FILES_FOR_PARALLEL"]).None?)
  {
    match minItems
    case Some(n) => Some(n)
    case None =>
      if "MIN_FILES_FOR_PARALLEL" in env then ParseInt(env["MIN_FILES_FOR_PARALLEL"])
      else
        DefaultReadsAsFifty();
        ParseInt("50")
  }

  /** The default setting "50" reads as 50. */
  lemma DefaultReadsAsFifty()
    ensures ParseInt("50") == Some(50)
  {
    FiftyRendered();
    ParseIntOfNatToString(50);
  }

  lemma FiftyRendered()
    ensures NatToString(50) == "50"
  {
    assert NatToString(5) == "5";
  }

  /** `get_processing_pool`, up to the entered manager: sequential exactly when an item
      count is given and is below the threshold; an unreadable threshold raises. */
  function GetProcessingPool(maxWorkers: Option<int>, minItems: Option<int>, itemCount: Option<int>,
                             env: map<string, string>, p: Probe): (r: Result<Manager, string>)
    ensures Threshold(minItems, env).None? ==> r.Err?
    ensures r.Ok? ==> var t := Threshold(minItems, env).value;
      (r.value.executorType == Some(Sequential) <==> (itemCount.Some? && itemCount.value < t) || ParallelDisabled(env))
  {
    match Threshold(minItems, env)
    case None => Err("invalid literal for int()")
    case Some(t) =>
      var sequential := itemCount.Some? && itemCount.value < t;
      Enter(NewManager(maxWorkers, sequential, None, env, p), env, p)
  }

  /** Without an argument or environment setting, the threshold is 50 items. */
  lemma DefaultThreshold(env: map<string, string>)
    requires "MIN_FILES_FOR_PARALLEL" !in env
    ensures Threshold(None, env) == Some(50)
  {
  }

  /** A pool for fewer items than the threshold runs inline: every submitted call is
      already completed, whatever the environment or the probes say. */
  lemma SmallWorkRunsInline<T>(maxWorkers: Option<int>, minItems: Option<int>, n: int,
                               env: map<string, string>, p: Probe, call: Result<T, string>)
    requires Threshold(minItems, env).Some? && n < Threshold(minItems, env).value
    ensures var r := GetProcessingPool(maxWorkers, minItems, Some(n), env, p);
      r.Ok? && Inline(r.value) && Submit(r.value, call) == Completed(call)
  {
    var t := Threshold(minItems, env).value;
    var m := NewManager(maxWorkers, true, None, env, p);
    assert ChosenKind(m, env, p) == Sequential;
  }
}
