// AbstractIOController: the state every controller shares - the executor
// flag, the activation flag the processor flips as sessions come and go,
// the handler, the two disposal flags, and the counter that names the
// controller's worker tasks.
module ControllerBase {
  import opened Common
  import opened FilterEvents
  import JavaLang

  class IOControllerBase {
    /** True when the constructor was given no executor and made its own. */
    const createdExecutor: bool
    var activated: bool
    var handler: IOHandler
    var disposing: bool
    var disposed: bool
    /** How many times dispose0, the subclass's release step, has run. */
    var dispose0Runs: nat
    /** Whether the executor the controller created has been shut down. */
    var executorShutdown: bool

    /** The disposal flags only move forward: disposed implies disposing. */
    ghost predicate Valid()
      reads this
    {
      (disposed ==> disposing)
      && dispose0Runs == (if disposing then 1 else 0)
      && (executorShutdown ==> createdExecutor && disposed)
      && (disposed ==> executorShutdown == createdExecutor)
    }

    /** A null executor (executorGiven false) makes the controller create, and later shut down, its own. */
    constructor(executorGiven: bool)
      ensures Valid()
      ensures createdExecutor == !executorGiven
      ensures !activated && !disposing && !disposed && !executorShutdown
      ensures handler == HANDLER_ADAPTER
    {
      createdExecutor := !executorGiven;
      activated := false;
      handler := HANDLER_ADAPTER;
      disposing := false;
      disposed := false;
      dispose0Runs := 0;
      executorShutdown := false;
    }

    function IsActive(): (r: bool)
      reads this
    {
      activated
    }

    /** compareAndSet(false, true): the flag ends up set whatever it was. */
    method Activate()
      modifies this
      ensures IsActive()
      ensures handler == old(handler) && disposing == old(disposing) && disposed == old(disposed)
      ensures dispose0Runs == old(dispose0Runs) && executorShutdown == old(executorShutdown)
    {
      if !activated {
        activated := true;
      }
    }

    /** compareAndSet(true, false) */
    method Deactivate()
      modifies this
      ensures !IsActive()
      ensures handler == old(handler) && disposing == old(disposing) && disposed == old(disposed)
      ensures dispose0Runs == old(dispose0Runs) && executorShutdown == old(executorShutdown)
    {
      if activated {
        activated := false;
      }
    }

    /** setHandler: refuses null, and refuses any handler while the controller is active. */
    method SetHandler(h: Option<IOHandler>) returns (o: Outcome)
      modifies this
      ensures o == SetHandlerOutcome(h, old(activated))
      ensures o.Done? ==> handler == h.value
      ensures o.Threw? ==> handler == old(handler)
      ensures activated == old(activated) && disposing == old(disposing) && disposed == old(disposed)
      ensures dispose0Runs == old(dispose0Runs) && executorShutdown == old(executorShutdown)
    {
      if h.None? {
        return Threw(Exn(IllegalArgument, "handler cannot be null"));
      }
      if IsActive() {
        return Threw(Exn(IllegalState, "handler cannot be set while the service is active."));
      }
      handler := h.value;
      o := Done;
    }

    /**
     * dispose: the first call runs dispose0 (an exception from it is
     * printed and swallowed), shuts down an executor the controller
     * created, and marks the controller disposed. Waiting for the
     * disposal future is outside this model.
     */
    method Dispose()
      requires Valid()
      modifies this
      ensures Valid()
      ensures disposing && disposed
      ensures dispose0Runs == 1
      ensures executorShutdown == (createdExecutor || old(executorShutdown))
      ensures old(disposed) ==> executorShutdown == old(executorShutdown)
      ensures activated == old(activated) && handler == old(handler)
    {
      if disposed {
        return;
      }
      if !disposing {
        disposing := true;
        dispose0Runs := dispose0Runs + 1;
      }
      if createdExecutor {
        executorShutdown := true;
      }
      disposed := true;
    }

    function IsDisposing(): (r: bool)
      reads this
    {
      disposing
    }
  }

  /** What setHandler does with a handler (None for null) given the activation flag. */
  function SetHandlerOutcome(h: Option<IOHandler>, active: bool): (o: Outcome)
    ensures o.Done? <==> h.Some? && !active
    ensures h.None? ==> o.exn.kind == IllegalArgument
    ensures h.Some? && active ==> o.exn.kind == IllegalState
  {
    if h.None? then Threw(Exn(IllegalArgument, "handler cannot be null"))
    else if active then Threw(Exn(IllegalState, "handler cannot be set while the service is active."))
    else Done
  }

  // ------------------------------------------------- worker task names

  /** The largest task number before the shared counter starts again. */
  const TASK_ID_LIMIT := INT_MAX - 1

  /** The name executeRunnable gives a task: SimpleName-n, then [suffix] when one is given. */
  function TaskName(simpleName: string, n: int, suffix: Option<string>): (name: string)
  {
    var base := simpleName + "-" + JavaLang.IntToDecimal(n);
    if suffix.Some? then base + "[" + suffix.value + "]" else base
  }

  /** The number the k-th task ever started (counting from 0) receives. */
  function TaskNumber(k: nat): (n: int)
    ensures 1 <= n <= TASK_ID_LIMIT
  {
    k % TASK_ID_LIMIT + 1
  }

  /**
   * The static AtomicInteger every controller shares: incremented before
   * each task is named, and reset to 0 once it reaches
   * Integer.MAX_VALUE - 1.
   */
  class TaskCounter {
    var id: int
    /** How many tasks have been named so far. */
    ghost var started: nat

    ghost predicate Valid()
      reads this
    {
      id == started % TASK_ID_LIMIT
    }

    constructor()
      ensures Valid() && id == 0 && started == 0
    {
      id := 0;
      started := 0;
    }

    /**
     * executeRunnable, less the executor: the name the task runs under.
     * The counter never exceeds Integer.MAX_VALUE - 1, so the increment
     * never overflows.
     */
    method ExecuteRunnable(simpleName: string, suffix: Option<string>) returns (name: string)
      requires Valid()
      modifies this
      ensures Valid() && started == old(started) + 1
      ensures name == TaskName(simpleName, TaskNumber(old(started)), suffix)
      ensures 0 <= id < TASK_ID_LIMIT
    {
      id := id + 1;
      name := simpleName + "-" + JavaLang.IntToDecimal(id);
      if suffix.Some? {
        name := name + "[" + suffix.value + "]";
      }
      if id >= TASK_ID_LIMIT {
        id := 0;
      }
      started := started + 1;
      CounterStep(old(started));
    }
  }

  /** The counter's value after k + 1 tasks follows from its value after k. */
  lemma CounterStep(k: nat)
    ensures (k + 1) % TASK_ID_LIMIT == if k % TASK_ID_LIMIT + 1 >= TASK_ID_LIMIT then 0 else k % TASK_ID_LIMIT + 1
  {
  }

  /** Task numbers run 1, 2, ..., Integer.MAX_VALUE - 1 and then start again at 1. */
  lemma TaskNumbersCycle(k: nat)
    ensures TaskNumber(k) == k + 1 || k >= TASK_ID_LIMIT
    ensures TaskNumber(k + TASK_ID_LIMIT) == TaskNumber(k)
  {
  }

  /** A name with a suffix ends with it in brackets, and both forms start with SimpleName-. */
  lemma TaskNameShape(simpleName: string, n: int, suffix: Option<string>)
    ensures var name := TaskName(simpleName, n, suffix);
      name[..|simpleName| + 1] == simpleName + "-"
      && (suffix.Some? ==> name[|name| - |suffix.value| - 2..] == "[" + suffix.value + "]")
  {
  }
}
