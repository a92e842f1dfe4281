/** getInstance with double-checked locking, for any number of threads that call it any number of
    times. A step is one atomic action (sequential consistency), so a list of steps is one
    interleaving. */
module Singleton {

  import opened Options

  class DatabaseConnection {
    constructor () {}
  }

  class Registry {
    var instance: DatabaseConnection?

    /** getInstance when no other thread interferes. */
    method GetInstance() returns (tmp: DatabaseConnection)
      modifies this
      ensures instance == tmp
      ensures if old(instance) != null then tmp == old(instance) else fresh(tmp)
    {
      var loaded := instance;
      if loaded == null {
        loaded := instance;
        if loaded == null {
          loaded := new DatabaseConnection();
          instance := loaded;
        }
      }
      tmp := loaded;
    }
  }

  // ---------- The threads ----------

  /** Objects are named by the order in which they are constructed. */
  type Connection = nat

  /** Where a thread stands in getInstance. */
  datatype Thread =
    | Idle                             // not in a call
    | Entered                          // before the first load
    | Waiting                          // saw null, wants the mutex
    | Locked                           // before the second load
    | Constructing                     // saw null again
    | Storing(tmp: Connection)         // before the store
    | Unlocking(tmp: Connection)       // before the mutex is released
    | Returning(tmp: Connection)

  predicate InCriticalSection(t: Thread)
  {
    t.Locked? || t.Constructing? || t.Storing? || t.Unlocking?
  }

  datatype State = State(
    instance: Option<Connection>,
    owner: Option<nat>,          // the thread that holds the mutex
    threads: seq<Thread>,
    constructed: nat,
    returned: seq<Connection>)   // the results of all calls so far

  function Initial(n: nat): State
  {
    State(None, None, seq(n, _ => Idle), 0, [])
  }

  /** Only waiting for the mutex can block. */
  predicate Enabled(s: State, i: nat)
  {
    i < |s.threads| && (s.threads[i].Waiting? ==> s.owner.None?)
  }

  function Next(s: State, i: nat): State
    requires Enabled(s, i)
  {
    match s.threads[i]
    case Idle => Moved(s, i, Entered)
    case Entered => Moved(s, i, if s.instance.None? then Waiting else Returning(s.instance.value))
    case Waiting => Moved(s, i, Locked).(owner := Some(i))
    case Locked => Moved(s, i, if s.instance.None? then Constructing else Unlocking(s.instance.value))
    case Constructing => Moved(s, i, Storing(s.constructed)).(constructed := s.constructed + 1)
    case Storing(tmp) => Moved(s, i, Unlocking(tmp)).(instance := Some(tmp))
    case Unlocking(tmp) => Moved(s, i, Returning(tmp)).(owner := None)
    case Returning(tmp) => Moved(s, i, Idle).(returned := s.returned + [tmp])
  }

  function Moved(s: State, i: nat, t: Thread): State
    requires i < |s.threads|
  {
    s.(threads := s.threads[i := t])
  }

  predicate Runs(s: State, steps: seq<nat>)
    decreases |steps|
  {
    steps == [] || (Enabled(s, steps[0]) && Runs(Next(s, steps[0]), steps[1..]))
  }

  function Final(s: State, steps: seq<nat>): State
    requires Runs(s, steps)
    decreases |steps|
  {
    if steps == [] then s else Final(Next(s, steps[0]), steps[1..])
  }

  // ---------- The invariant ----------

  /** What a thread knows at each point of the call. */
  predicate ThreadInv(s: State, i: nat)
    requires i < |s.threads|
  {
    && (InCriticalSection(s.threads[i]) <==> s.owner == Some(i))
    && match s.threads[i]
       case Constructing => s.instance.None? && s.constructed == 0
       case Storing(tmp) => s.instance.None? && s.constructed == 1 && tmp == 0
       case Unlocking(tmp) => s.instance == Some(tmp)
       case Returning(tmp) => s.instance == Some(tmp)
       case _ => true
  }

  /** Between the construction and the store, the constructing thread holds the mutex. */
  ghost predicate Inv(s: State)
  {
    && (forall i :: 0 <= i < |s.threads| ==> ThreadInv(s, i))
    && (s.owner.Some? ==> s.owner.value < |s.threads|)
    && (s.instance.Some? ==> s.instance.value == 0 && s.constructed == 1)
    && (s.instance.None? && s.constructed > 0 ==> s.owner.Some? && s.threads[s.owner.value].Storing?)
    && (forall k :: 0 <= k < |s.returned| ==> s.instance == Some(s.returned[k]))
  }

  lemma StepKeepsInv(s: State, i: nat)
    requires Inv(s) && Enabled(s, i)
    ensures Inv(Next(s, i))
  {
    var s' := Next(s, i);
    assert ThreadInv(s, i);
    forall k | 0 <= k < |s'.threads|
      ensures ThreadInv(s', k)
    {
      assert ThreadInv(s, k);
    }
  }

  lemma {:induction false} RunKeepsInv(s: State, steps: seq<nat>)
    requires Inv(s) && Runs(s, steps)
    ensures Inv(Final(s, steps))
    decreases |steps|
  {
    if steps != [] {
      StepKeepsInv(s, steps[0]);
      RunKeepsInv(Next(s, steps[0]), steps[1..]);
    }
  }

  lemma AtMostOne(s: State)
    requires Inv(s)
    ensures s.constructed <= 1
    ensures s.returned != [] ==> s.constructed == 1
    ensures forall k :: 0 <= k < |s.returned| ==> s.returned[k] == 0
  {
    if s.returned != [] {
      assert s.instance == Some(s.returned[0]);
    }
    if s.instance.None? && s.constructed > 0 {
      assert ThreadInv(s, s.owner.value);
    }
  }

  /** In every interleaving at most one object is constructed, and every call returns it. */
  lemma OneInstance(n: nat, steps: seq<nat>)
    requires Runs(Initial(n), steps)
    ensures Final(Initial(n), steps).constructed <= 1
    ensures forall c :: c in Final(Initial(n), steps).returned ==> c == 0 && Final(Initial(n), steps).constructed == 1
  {
    RunKeepsInv(Initial(n), steps);
    AtMostOne(Final(Initial(n), steps));
  }

  /** Two threads are never in the critical section at the same time. */
  lemma MutualExclusion(n: nat, steps: seq<nat>, i: nat, j: nat)
    requires Runs(Initial(n), steps)
    requires i < |Final(Initial(n), steps).threads| && j < |Final(Initial(n), steps).threads|
    requires InCriticalSection(Final(Initial(n), steps).threads[i])
    requires InCriticalSection(Final(Initial(n), steps).threads[j])
    ensures i == j
  {
    RunKeepsInv(Initial(n), steps);
    var s := Final(Initial(n), steps);
    assert ThreadInv(s, i) && ThreadInv(s, j);
  }

  /** A call is never blocked for good: the thread that holds the mutex can always go on, and
      when nobody holds it every thread can. */
  lemma NoDeadlock(n: nat, steps: seq<nat>)
    requires Runs(Initial(n), steps)
    ensures var s := Final(Initial(n), steps);
            if s.owner.Some? then Enabled(s, s.owner.value) else forall i :: 0 <= i < |s.threads| ==> Enabled(s, i)
  {
    RunKeepsInv(Initial(n), steps);
    var s := Final(Initial(n), steps);
    if s.owner.Some? {
      assert ThreadInv(s, s.owner.value);
    }
  }

  /** The number of its own steps after which a thread leaves the critical section. */
  function StepsToUnlock(t: Thread): nat
  {
    match t
    case Locked => 4
    case Constructing => 3
    case Storing(_) => 2
    case Unlocking(_) => 1
    case _ => 0
  }

  /** Each step of the thread in the critical section brings it closer to releasing the mutex, and
      no step of another thread takes it back. */
  lemma MutexIsReleased(s: State, i: nat, j: nat)
    requires Inv(s) && Enabled(s, i) && j < |s.threads| && InCriticalSection(s.threads[j])
    ensures i == j ==> StepsToUnlock(Next(s, i).threads[j]) < StepsToUnlock(s.threads[j])
    ensures i != j ==> Next(s, i).threads[j] == s.threads[j]
    ensures InCriticalSection(Next(s, i).threads[j]) <==> StepsToUnlock(Next(s, i).threads[j]) > 0
  {
  }

  // ---------- Progress ----------

  /** The number of its own steps after which a call has returned, at most. */
  function StepsToReturn(t: Thread): nat
  {
    match t
    case Idle => 0
    case Entered => 7
    case Waiting => 6
    case Locked => 5
    case Constructing => 4
    case Storing(_) => 3
    case Unlocking(_) => 2
    case Returning(_) => 1
  }

  /** The step is the end of a call of thread j: its result is the object that getInstance keeps. */
  ghost predicate Returns(s: State, j: nat)
  {
    && j < |s.threads| && Enabled(s, j) && Next(s, j).threads[j].Idle?
    && s.instance.Some? && Next(s, j).returned == s.returned + [s.instance.value]
  }

  lemma StepTowardReturn(s: State, i: nat, j: nat)
    requires Inv(s) && Enabled(s, i) && j < |s.threads| && !s.threads[j].Idle?
    ensures j < |Next(s, i).threads|
    ensures if i == j && s.threads[j].Returning? then Returns(s, j)
            else if i == j then 0 < StepsToReturn(Next(s, i).threads[j]) < StepsToReturn(s.threads[j])
            else Next(s, i).threads[j] == s.threads[j]
  {
    assert ThreadInv(s, j);
  }

  lemma {:induction false} ReturnIsReached(s: State, steps: seq<nat>, j: nat) returns (k: nat)
    requires Inv(s) && Runs(s, steps) && j < |s.threads| && !s.threads[j].Idle?
    requires multiset(steps)[j] >= StepsToReturn(s.threads[j])
    ensures k < |steps| && steps[k] == j && Runs(s, steps[..k]) && Returns(Final(s, steps[..k]), j)
    decreases |steps|
  {
    assert steps == [steps[0]] + steps[1..];
    StepTowardReturn(s, steps[0], j);
    if steps[0] == j && s.threads[j].Returning? {
      k := 0;
    } else {
      StepKeepsInv(s, steps[0]);
      k := ReturnIsReached(Next(s, steps[0]), steps[1..], j);
      k := k + 1;
      assert steps[..k][1..] == steps[1..][..k - 1];
    }
  }

  /** In every run a call returns within seven steps of its thread, whatever the other threads do. */
  lemma EveryCallReturns(n: nat, past: seq<nat>, steps: seq<nat>, j: nat) returns (k: nat)
    requires Runs(Initial(n), past) && Runs(Final(Initial(n), past), steps)
    requires j < |Final(Initial(n), past).threads| && !Final(Initial(n), past).threads[j].Idle?
    requires multiset(steps)[j] >= 7
    ensures k < |steps| && steps[k] == j && Runs(Final(Initial(n), past), steps[..k])
    ensures Returns(Final(Final(Initial(n), past), steps[..k]), j)
  {
    RunKeepsInv(Initial(n), past);
    k := ReturnIsReached(Final(Initial(n), past), steps, j);
  }
}
