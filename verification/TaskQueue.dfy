/** A task queue shared by W workers, each of which leaves when it pops a poison pill. A step is
    one critical section of the queue, so a list of steps is one interleaving of the threads. */
module TaskQueue {

  const PILL: int := -1

  class TaskQueue {
    var tasks: seq<int>

    constructor ()
      ensures tasks == []
    {
      tasks := [];
    }

    method Push(task: int)
      modifies this
      ensures tasks == old(tasks) + [task]
    {
      tasks := tasks + [task];
    }

    /** The critical section of pop, once the wait for a non-empty queue is over. */
    method Pop() returns (task: int)
      requires tasks != []
      modifies this
      ensures old(tasks) == [task] + tasks
    {
      task := tasks[0];
      tasks := tasks[1..];
    }
  }

  // ---------- The threads ----------

  /** Where a worker stands in its loop. */
  datatype Worker = Popping | Processing(task: int) | Exited

  /** queue: the queue; workers: one entry for each worker thread; toPush: what main still has to
      push; popped: everything popped so far, in order; finished: the tasks processed so far. */
  datatype State = State(queue: seq<int>, workers: seq<Worker>, toPush: seq<int>, popped: seq<int>, finished: seq<int>)

  datatype Step = Push | Pop(w: nat) | Finish(w: nat)

  /** What main pushes: the tasks, then one pill for each of n workers. */
  function Program(tasks: seq<int>, n: nat): seq<int>
  {
    tasks + seq(n, _ => PILL)
  }

  function Initial(tasks: seq<int>, n: nat): State
  {
    State([], seq(n, _ => Popping), Program(tasks, n), [], [])
  }

  predicate Enabled(s: State, step: Step)
  {
    match step
    case Push => s.toPush != []
    case Pop(w) => w < |s.workers| && s.workers[w].Popping? && s.queue != []
    case Finish(w) => w < |s.workers| && s.workers[w].Processing?
  }

  function Next(s: State, step: Step): State
    requires Enabled(s, step)
  {
    match step
    case Push => s.(queue := s.queue + [s.toPush[0]], toPush := s.toPush[1..])
    case Pop(w) =>
      var task := s.queue[0];
      s.(queue := s.queue[1..], popped := s.popped + [task],
         workers := s.workers[w := if task == PILL then Exited else Processing(task)])
    case Finish(w) =>
      s.(workers := s.workers[w := Popping], finished := s.finished + [s.workers[w].task])
  }

  predicate Runs(s: State, steps: seq<Step>)
    decreases |steps|
  {
    steps == [] || (Enabled(s, steps[0]) && Runs(Next(s, steps[0]), steps[1..]))
  }

  function Final(s: State, steps: seq<Step>): State
    requires Runs(s, steps)
    decreases |steps|
  {
    if steps == [] then s else Final(Next(s, steps[0]), steps[1..])
  }

  // ---------- Counting ----------

  /** The number of elements of q that equal x. */
  function Count<T(==)>(q: seq<T>, x: T): nat
  {
    if q == [] then 0 else (if q[0] == x then 1 else 0) + Count(q[1..], x)
  }

  lemma {:induction false} CountConcat<T>(p: seq<T>, q: seq<T>, x: T)
    ensures Count(p + q, x) == Count(p, x) + Count(q, x)
    decreases |p|
  {
    if p == [] {
      assert p + q == q;
    } else {
      assert (p + q)[1..] == p[1..] + q;
      CountConcat(p[1..], q, x);
    }
  }

  lemma {:induction false} CountUpdate<T>(q: seq<T>, i: nat, y: T, x: T)
    requires i < |q|
    ensures Count(q[i := y], x) == Count(q, x) - (if q[i] == x then 1 else 0) + (if y == x then 1 else 0)
    decreases |q|
  {
    if i > 0 {
      assert q[i := y][1..] == q[1..][i - 1 := y];
      CountUpdate(q[1..], i - 1, y, x);
    }
  }

  lemma {:induction false} CountBounds<T>(q: seq<T>, x: T)
    ensures Count(q, x) <= |q|
    ensures Count(q, x) > 0 <==> x in q
    ensures Count(q, x) == |q| <==> forall i :: 0 <= i < |q| ==> q[i] == x
  {
    if q != [] {
      CountBounds(q[1..], x);
      assert forall i :: 0 < i < |q| ==> q[i] == q[1..][i - 1];
    }
  }

  // ---------- The invariant ----------

  /** The tasks the workers are processing, each as often as workers process it. */
  predicate TasksAccounted(s: State, t: int)
  {
    t != PILL ==> Count(s.popped, t) == Count(s.finished, t) + Count(s.workers, Processing(t))
  }

  ghost predicate Inv(s: State, program: seq<int>, n: nat)
  {
    && |s.workers| == n
    && s.popped + s.queue + s.toPush == program
    && Count(s.workers, Exited) == Count(s.popped, PILL)
    && (forall t :: TasksAccounted(s, t))
    && Count(s.finished, PILL) == 0
    && (forall w :: 0 <= w < n ==> s.workers[w] != Processing(PILL))
  }

  lemma {:induction false} CountSame<T>(n: nat, y: T, x: T)
    ensures Count(seq(n, _ => y), x) == if x == y then n else 0
  {
    if n > 0 {
      var q := seq(n, _ => y);
      assert q[1..] == seq(n - 1, _ => y);
      CountSame(n - 1, y, x);
    }
  }

  lemma InitialInv(tasks: seq<int>, n: nat)
    ensures Inv(Initial(tasks, n), Program(tasks, n), n)
  {
    var s := Initial(tasks, n);
    assert s.popped + s.queue + s.toPush == s.toPush;
    CountSame(n, Popping, Exited);
    forall t
      ensures TasksAccounted(s, t)
    {
      CountSame(n, Popping, Processing(t));
    }
  }

  lemma StepKeepsInv(s: State, step: Step, program: seq<int>, n: nat)
    requires Inv(s, program, n) && Enabled(s, step)
    ensures Inv(Next(s, step), program, n)
  {
    var s' := Next(s, step);
    match step
    case Push =>
      assert s.toPush == [s.toPush[0]] + s.toPush[1..];
      assert s'.popped + s'.queue + s'.toPush == s.popped + s.queue + s.toPush;
      assert forall t :: TasksAccounted(s, t) ==> TasksAccounted(s', t);
    case Pop(w) =>
      assert s.queue == [s.queue[0]] + s.queue[1..];
      assert s'.popped + s'.queue + s'.toPush == s.popped + s.queue + s.toPush;
      CountConcat(s.popped, [s.queue[0]], PILL);
      CountUpdate(s.workers, w, s'.workers[w], Exited);
      forall t
        ensures TasksAccounted(s', t)
      {
        assert TasksAccounted(s, t);
        CountConcat(s.popped, [s.queue[0]], t);
        CountUpdate(s.workers, w, s'.workers[w], Processing(t));
      }
    case Finish(w) =>
      CountConcat(s.finished, [s.workers[w].task], PILL);
      CountUpdate(s.workers, w, Popping, Exited);
      forall t
        ensures TasksAccounted(s', t)
      {
        assert TasksAccounted(s, t);
        CountConcat(s.finished, [s.workers[w].task], t);
        CountUpdate(s.workers, w, Popping, Processing(t));
      }
  }

  lemma {:induction false} RunKeepsInv(s: State, steps: seq<Step>, program: seq<int>, n: nat)
    requires Inv(s, program, n) && Runs(s, steps)
    ensures Inv(Final(s, steps), program, n)
    decreases |steps|
  {
    if steps != [] {
      StepKeepsInv(s, steps[0], program, n);
      RunKeepsInv(Next(s, steps[0]), steps[1..], program, n);
    }
  }

  // ---------- What every run satisfies ----------

  lemma ReachableInv(tasks: seq<int>, n: nat, steps: seq<Step>)
    requires Runs(Initial(tasks, n), steps)
    ensures Inv(Final(Initial(tasks, n), steps), Program(tasks, n), n)
  {
    InitialInv(tasks, n);
    RunKeepsInv(Initial(tasks, n), steps, Program(tasks, n), n);
  }

  /** Elements are popped in the order in which they are pushed, each at most once. */
  lemma PopsInPushOrder(tasks: seq<int>, n: nat, steps: seq<Step>)
    requires Runs(Initial(tasks, n), steps)
    ensures Final(Initial(tasks, n), steps).popped <= tasks + seq(n, _ => -1)
  {
    ReachableInv(tasks, n, steps);
  }

  /** No worker leaves before every task has been popped. */
  lemma NoEarlyExit(tasks: seq<int>, n: nat, steps: seq<Step>, w: nat)
    requires -1 !in tasks
    requires Runs(Initial(tasks, n), steps) && w < n
    ensures |Final(Initial(tasks, n), steps).workers| == n
    ensures Final(Initial(tasks, n), steps).workers[w].Exited? ==>
              |tasks| < |Final(Initial(tasks, n), steps).popped| && tasks <= Final(Initial(tasks, n), steps).popped
  {
    ReachableInv(tasks, n, steps);
    var s := Final(Initial(tasks, n), steps);
    if s.workers[w].Exited? {
      CountBounds(s.workers, Exited);
      CountBounds(s.popped, PILL);
      var i :| 0 <= i < |s.popped| && s.popped[i] == PILL;
      var program := Program(tasks, n);
      assert s.popped == program[..|s.popped|] && tasks == program[..|tasks|];
      assert program[i] == PILL;
      assert forall k :: 0 <= k < |tasks| ==> program[k] in tasks;
    }
  }

  predicate AllExited(s: State)
  {
    forall w :: 0 <= w < |s.workers| ==> s.workers[w].Exited?
  }

  /** There is no deadlock: until all workers have left, some step is enabled. */
  lemma NoDeadlock(tasks: seq<int>, n: nat, steps: seq<Step>)
    requires PILL !in tasks
    requires Runs(Initial(tasks, n), steps)
    ensures var s := Final(Initial(tasks, n), steps);
            !AllExited(s) ==> exists step :: Enabled(s, step)
  {
    ReachableInv(tasks, n, steps);
    var s := Final(Initial(tasks, n), steps);
    if !AllExited(s) {
      var w :| 0 <= w < |s.workers| && !s.workers[w].Exited?;
      if s.toPush != [] {
        assert Enabled(s, Push);
      } else if s.workers[w].Processing? {
        assert Enabled(s, Finish(w));
      } else {
        if s.queue == [] {
          assert s.popped == Program(tasks, n);
          CountBounds(s.workers, Exited);
          CountProgram(tasks, n);
        }
        assert Enabled(s, Pop(w));
      }
    }
  }

  lemma CountProgram(tasks: seq<int>, n: nat)
    requires PILL !in tasks
    ensures Count(Program(tasks, n), PILL) == n
  {
    CountConcat(tasks, seq(n, _ => PILL), PILL);
    CountSame(n, PILL, PILL);
    CountBounds(tasks, PILL);
  }

  /** The work left: every element has to be pushed, popped and, if it is a task, finished. */
  function Measure(s: State): nat
  {
    3 * |s.toPush| + 2 * |s.queue| + Busy(s.workers)
  }

  function Busy(ws: seq<Worker>): nat
  {
    if ws == [] then 0 else (if ws[0].Processing? then 1 else 0) + Busy(ws[1..])
  }

  lemma {:induction false} BusyUpdate(ws: seq<Worker>, i: nat, y: Worker)
    requires i < |ws|
    ensures Busy(ws[i := y]) == Busy(ws) - (if ws[i].Processing? then 1 else 0) + (if y.Processing? then 1 else 0)
    decreases |ws|
  {
    if i > 0 {
      assert ws[i := y][1..] == ws[1..][i - 1 := y];
      BusyUpdate(ws[1..], i - 1, y);
    }
  }

  /** Every run ends: each step uses up some of the work. */
  lemma {:induction false} RunsAreBounded(s: State, steps: seq<Step>)
    requires Runs(s, steps)
    ensures |steps| + Measure(Final(s, steps)) <= Measure(s)
    decreases |steps|
  {
    if steps != [] {
      var step, s' := steps[0], Next(s, steps[0]);
      match step {
        case Push =>
        case Pop(w) => BusyUpdate(s.workers, w, s'.workers[w]);
        case Finish(w) => BusyUpdate(s.workers, w, s'.workers[w]);
      }
      RunsAreBounded(s', steps[1..]);
    }
  }

  lemma LastOfConcat(p: seq<int>, q: seq<int>)
    ensures q == [] || (p + q)[|p + q| - 1] in q
  {
    if q != [] {
      assert (p + q)[|p + q| - 1] == q[|q| - 1];
    }
  }

  /** Where a run of at least one worker stops, all workers have left, the queue is empty, and
      every task has been popped and processed exactly as often as it was pushed. */
  lemma RunsEndClean(tasks: seq<int>, n: nat, steps: seq<Step>)
    requires -1 !in tasks && n >= 1
    requires Runs(Initial(tasks, n), steps)
    requires forall step :: !Enabled(Final(Initial(tasks, n), steps), step)
    ensures var s := Final(Initial(tasks, n), steps);
            && AllExited(s) && s.queue == [] && s.toPush == []
            && s.popped == tasks + seq(n, _ => -1)
            && forall t :: Count(s.finished, t) == Count(tasks, t)
  {
    var s := Final(Initial(tasks, n), steps);
    ReachableInv(tasks, n, steps);
    NoDeadlock(tasks, n, steps);
    assert AllExited(s);
    assert !Enabled(s, Push) && s.toPush == [];
    CountBounds(s.workers, Exited);
    CountProgram(tasks, n);
    CountConcat(s.popped, s.queue, PILL);
    CountBounds(s.queue, PILL);
    // the last element of the program is a pill, and all pills have been popped
    assert s.popped + s.queue == Program(tasks, n);
    LastOfConcat(s.popped, s.queue);
    forall t
      ensures Count(s.finished, t) == Count(tasks, t)
    {
      assert TasksAccounted(s, t);
      assert s.popped == Program(tasks, n);
      CountConcat(tasks, seq(n, _ => PILL), t);
      CountSame(n, PILL, t);
      CountBounds(s.workers, Processing(t));
      CountBounds(tasks, t);
    }
  }
}
