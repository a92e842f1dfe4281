/** The GracefulTimer: an expiry heap, a map of active timers that keeps cancelled ones until they
    expire, a set of pending ids and a callback counter. The manager thread runs the callbacks
    itself, with the lock released. Every method is one critical section, one access to running_ or
    one action of the callback wrapper, and appends what it did to the history of the timer, so a
    history is one interleaving of the threads. */
module GracefulTimer {
  import opened Histories

  type Time = int

  datatype Task = Task(id: int, expiry: Time, isCancelled: bool)

  /** Where the manager thread stands: there is none, or it is about to test running_, or it is in
      a pass of its loop, or it runs the callback wrapper of a timer: before the counter goes up,
      while it is up, and after it went down again. */
  datatype Manager = Absent | Testing | Inside | Starting(id: int) | Running(id: int) | Ending(id: int) {
    /** A callback wrapper runs. */
    predicate Busy() { Starting? || Running? || Ending? }
  }

  // ---------- The plain table ----------

  datatype Event =
    | Started                     // start launched the manager thread
    | Stopped                     // stop cleared running_
    | Passed                      // the manager found running_ set
    | Left                        // the manager found running_ clear and ended
    | Admitted                    // addNonBlockingTimer found running_ set; it keeps the lock
    | Added(id: int, expiry: Time)
    | Refused                     // addNonBlockingTimer returned -1
    | Cancelled(id: int)          // cancelTimer returned true
    | CancelMissed(id: int)       // cancelTimer returned false
    | Taken(id: int, at: Time)    // the manager took an expired timer to run its callback
    | Skipped(id: int, at: Time)  // the manager dropped an expired timer that was cancelled
    | CallbackBegan(id: int)
    | CallbackEnded(id: int)
    | Retired(id: int)            // the wrapper removed the id from the pending set
    | Waited(at: Time)
    | Idle
    | Cleared                     // the end of stop

  /** entries: the timers that have not expired yet; added: the last id given out; adding: a call of
      addNonBlockingTimer holds the lock and has found running_ set. */
  datatype Plain = Plain(entries: map<int, Task>, added: int, running: bool, manager: Manager, adding: bool)

  const START := Plain(map[], 0, false, Absent, false)

  function Apply(s: Plain, e: Event): Plain
  {
    match e
    case Started => s.(running := true, manager := Testing)
    case Stopped => s.(running := false)
    case Passed => s.(manager := Inside)
    case Left => s.(manager := Absent)
    case Admitted => s.(adding := true)
    case Added(id, expiry) => s.(entries := s.entries[id := Task(id, expiry, false)], added := id, adding := false)
    case Refused => s
    case Cancelled(id) =>
      if id in s.entries then s.(entries := s.entries[id := s.entries[id].(isCancelled := true)]) else s
    case CancelMissed(_) => s
    case Taken(id, _) => s.(entries := s.entries - {id}, manager := Starting(id))
    case Skipped(id, _) => s.(entries := s.entries - {id}, manager := Testing)
    case CallbackBegan(id) => s.(manager := Running(id))
    case CallbackEnded(id) => s.(manager := Ending(id))
    case Retired(_) => s.(manager := Testing)
    case Waited(_) => s.(manager := Testing)
    case Idle => s.(manager := Testing)
    case Cleared => s.(entries := map[])
  }

  /** The timer has expired and none expires before it. */
  predicate Next(s: Plain, id: int, at: Time)
  {
    && id in s.entries && s.entries[id].expiry <= at
    && forall k :: k in s.entries ==> s.entries[id].expiry <= s.entries[k].expiry
  }

  /** The events that need the lock from its beginning. */
  predicate Locks(e: Event)
  {
    || e.Admitted? || e.Refused? || e.Cancelled? || e.CancelMissed? || e.Taken? || e.Skipped? || e.Retired?
    || e.Waited? || e.Idle? || e.Cleared?
  }

  predicate Allowed(s: Plain, e: Event)
  {
    (Locks(e) ==> !s.adding) &&
    match e
    case Started => !s.running && s.manager.Absent?
    case Stopped => s.running
    case Passed => s.running && s.manager.Testing?
    case Left => !s.running && s.manager.Testing?
    case Admitted => s.running
    case Added(id, _) => s.adding && id == s.added + 1
    case Refused => true
    case Cancelled(id) => id in s.entries
    case CancelMissed(id) => id !in s.entries
    case Taken(id, at) => s.manager.Inside? && Next(s, id, at) && !s.entries[id].isCancelled
    case Skipped(id, at) => s.manager.Inside? && Next(s, id, at) && s.entries[id].isCancelled
    case CallbackBegan(id) => s.manager == Starting(id)
    case CallbackEnded(id) => s.manager == Running(id)
    case Retired(id) => s.manager == Ending(id)
    case Waited(at) =>
      && s.manager.Inside? && s.entries != map[]
      && forall k :: k in s.entries ==> at < s.entries[k].expiry
    case Idle => s.manager.Inside? && s.entries == map[]
    case Cleared => !s.running && s.manager.Absent?
  }

  const TIMER: Machine<Plain, Event> := Machine(Allowed, Apply)

  function After(history: seq<Event>): Plain
  {
    Histories.After(TIMER, START, history)
  }

  predicate Lawful(history: seq<Event>)
  {
    Histories.Lawful(TIMER, START, history)
  }

  // ---------- The timer ----------

  /** The heap holds exactly one entry for each active timer, as it was when it was added. */
  ghost predicate HeapMatches(queue: multiset<Task>, active: map<int, Task>)
  {
    forall t :: queue[t] == if t.id in active && t == active[t.id].(isCancelled := false) then 1 else 0
  }

  ghost predicate IdsMatch(s: Plain)
  {
    && (forall id :: id in s.entries ==> id <= s.added && s.entries[id].id == id)
    && (s.manager.Busy() ==> s.manager.id <= s.added && s.manager.id !in s.entries)
  }

  /** The pending ids are the active timers that are not cancelled and the one in flight. */
  ghost predicate PendingMatches(pending: set<int>, s: Plain)
  {
    forall id :: id in pending <==>
      (id in s.entries && !s.entries[id].isCancelled) || (s.manager.Busy() && s.manager.id == id)
  }

  class GracefulTimer {
    var running: bool
    var queue: multiset<Task>
    var active: map<int, Task>
    var nextId: int
    var activeCallbacks: int
    var pending: set<int>
    ghost var plain: Plain
    ghost var history: seq<Event>

    ghost predicate Valid()
      reads this
    {
      Agrees() && Recorded(TIMER, START, history, plain)
    }

    /** The fields follow the plain table. */
    ghost predicate Agrees()
      reads this
    {
      && nextId == plain.added >= 0
      && active == plain.entries
      && running == plain.running
      && IdsMatch(plain)
      && HeapMatches(queue, active)
      && PendingMatches(pending, plain)
      && activeCallbacks == if plain.manager.Running? then 1 else 0
    }

    /** The call was one event, which the plain table allows. */
    twostate predicate Did(e: Event)
      reads this
    {
      history == old(history) + [e] && Does(TIMER, old(plain), e, plain)
    }

    constructor ()
      ensures Valid() && plain == START && history == []
    {
      running, queue, active, nextId, activeCallbacks, pending := false, multiset{}, map[], 0, 0, {};
      plain, history := START, [];
    }

    /** The end of a method: the event enters the plain table and the history. */
    ghost method Record(e: Event)
      requires Recorded(TIMER, START, history, plain) && Allowed(plain, e)
      modifies this`plain, this`history
      ensures Recorded(TIMER, START, history, plain) && Did(e)
    {
      RecordNext(TIMER, START, history, plain, e);
      plain, history := Apply(plain, e), history + [e];
    }

    /** A timer whose manager thread has not been joined yet must not be started again. */
    method Start()
      requires Valid() && (!running ==> plain.manager.Absent?)
      modifies this
      ensures Valid()
      ensures if old(running) then plain == old(plain) && history == old(history) else Did(Started)
      ensures running && active == old(active) && queue == old(queue) && (old(running) || plain.manager.Testing?)
    {
      if running { return; }
      running := true;
      Record(Started);
    }

    /** The first part of stop. */
    method SignalStop() returns (stopped: bool)
      requires Valid()
      modifies this
      ensures Valid() && stopped == old(running)
      ensures if stopped then Did(Stopped) else plain == old(plain) && history == old(history)
      ensures !running && active == old(active) && queue == old(queue) && plain.manager == old(plain.manager)
    {
      if !running { return false; }
      running := false;
      Record(Stopped);
      stopped := true;
    }

    /** The test of the manager loop. */
    method TestRunning() returns (go: bool)
      requires Valid() && plain.manager.Testing?
      modifies this
      ensures Valid() && go == running && Did(if go then Passed else Left)
      ensures running == old(running) && active == old(active) && queue == old(queue)
      ensures if go then plain.manager.Inside? else plain.manager.Absent?
    {
      go := running;
      Record(if go then Passed else Left);
    }

    method AddNonBlockingTimer(duration: int, now: Time, shouldExit: bool) returns (id: int)
      requires Valid() && !plain.adding
      modifies this
      ensures Valid() && (id == -1 <==> shouldExit || !old(running))
      ensures history == old(history) + if id == -1 then [Refused] else [Admitted, Added(id, now + duration)]
    {
      var admitted := Admit(shouldExit);
      if !admitted {
        return -1;
      }
      id := Enqueue(now + duration);
    }

    /** The tests of addNonBlockingTimer, under the lock, which it keeps when they succeed. */
    method Admit(shouldExit: bool) returns (admitted: bool)
      requires Valid() && !plain.adding
      modifies this
      ensures Valid() && admitted == (!shouldExit && old(running))
      ensures Did(if admitted then Admitted else Refused) && running == old(running)
    {
      if shouldExit {
        admitted := false;
      } else {
        admitted := running;
      }
      Record(if admitted then Admitted else Refused);
    }

    /** The part of addNonBlockingTimer that enters the timer into the tables. stop may have cleared
        running_ since the test. */
    method Enqueue(expiry: Time) returns (id: int)
      requires Valid() && plain.adding
      modifies this
      ensures Valid() && id > 0 && Did(Added(id, expiry))
      ensures id !in old(active) && active == old(active)[id := Task(id, expiry, false)]
      ensures pending == old(pending) + {id}
    {
      AddMatches(queue, plain, pending, expiry);
      nextId := nextId + 1;
      id := nextId;
      pending := pending + {id};
      var task := Task(id, expiry, false);
      queue := queue + multiset{task};
      active := active[id := task];
      Record(Added(id, expiry));
    }

    method CancelTimer(timerId: int) returns (found: bool)
      requires Valid() && !plain.adding
      modifies this
      ensures Valid() && Did(if found then Cancelled(timerId) else CancelMissed(timerId))
      ensures found <==> timerId in old(active)
      ensures pending == old(pending) - if found then {timerId} else {}
      ensures active ==
                if found then old(active)[timerId := Task(timerId, old(active)[timerId].expiry, true)] else old(active)
    {
      found := timerId in active;
      if found {
        active := active[timerId := active[timerId].(isCancelled := true)];
        pending := pending - {timerId};
        Record(Cancelled(timerId));
      } else {
        Record(CancelMissed(timerId));
      }
    }

    method GetActiveCallbackCount() returns (count: int)
      requires Valid()
      ensures count == if plain.manager.Running? then 1 else 0
    {
      count := activeCallbacks;
    }

    /** top(): some entry with the least expiry. */
    method Top() returns (next: Task)
      requires queue != multiset{}
      ensures next in queue && forall t :: t in queue ==> next.expiry <= t.expiry
    {
      LeastExists(queue, (t: Task) => t.expiry);
      next :| next in queue && forall t :: t in queue ==> next.expiry <= t.expiry;
    }

    /** One pass of the manager loop, up to the point where it releases the lock. */
    method ManagerIteration(now: Time) returns (e: Event)
      requires Valid() && plain.manager.Inside? && !plain.adding
      modifies this
      ensures Valid() && Did(e)
      ensures e.Idle? || e == Waited(now) || (e.Taken? && e.at == now) || (e.Skipped? && e.at == now)
      ensures e.Idle? <==> old(queue) == multiset{}
      ensures e.Waited? <==> old(queue) != multiset{} && forall t :: t in old(queue) ==> now < t.expiry
      ensures e.Taken? || e.Skipped? ==>
                && e.id in old(active) && old(active)[e.id].expiry <= now
                && (e.Skipped? <==> old(active)[e.id].isCancelled)
                && forall k :: k in old(active) ==> old(active)[e.id].expiry <= old(active)[k].expiry
    {
      if queue == multiset{} {
        NothingQueued(queue, plain);
        Record(Idle);
        return Idle;
      }
      var next := Top();
      NextIsLeast(queue, plain, next);
      if now >= next.expiry {
        e := Expire(next, now);
      } else {
        e := Waited(now);
        Record(e);
      }
    }

    /** The branch of the pass for an expired entry. Its id is always found in the map. */
    method Expire(next: Task, now: Time) returns (e: Event)
      requires Valid() && plain.manager.Inside? && !plain.adding
      requires next.id in active && next == active[next.id].(isCancelled := false)
      requires Next(plain, next.id, now)
      modifies this
      ensures Valid() && Did(e)
      ensures e == if old(active[next.id].isCancelled) then Skipped(next.id, now) else Taken(next.id, now)
      ensures active == old(active) - {next.id}
    {
      PopMatches(queue, plain, pending, next, now);
      queue := queue - multiset{next};
      var task := active[next.id];
      active := active - {next.id};
      if !task.isCancelled {
        e := Taken(task.id, now);
      } else {
        pending := pending - {next.id};
        e := Skipped(next.id, now);
      }
      Record(e);
    }

    /** The callback wrapper: the counter goes up before the callback, ... */
    method BeginCallback(id: int)
      requires Valid() && plain.manager == Starting(id)
      modifies this
      ensures Valid() && Did(CallbackBegan(id)) && old(activeCallbacks) == 0 && activeCallbacks == 1
      ensures plain.manager == Running(id) && pending == old(pending)
    {
      activeCallbacks := activeCallbacks + 1;
      Record(CallbackBegan(id));
    }

    /** ... goes down after it, ... */
    method EndCallback(id: int)
      requires Valid() && plain.manager == Running(id)
      modifies this
      ensures Valid() && Did(CallbackEnded(id)) && old(activeCallbacks) == 1 && activeCallbacks == 0
      ensures plain.manager == Ending(id) && pending == old(pending)
    {
      activeCallbacks := activeCallbacks - 1;
      Record(CallbackEnded(id));
    }

    /** ... and then the id stops being pending. */
    method RetireCallback(id: int)
      requires Valid() && plain.manager == Ending(id) && !plain.adding
      modifies this
      ensures Valid() && Did(Retired(id)) && pending == old(pending) - {id}
    {
      pending := pending - {id};
      Record(Retired(id));
    }

    /** The end of stop, after the manager thread was joined: no callback is active, so the wait for
        the callbacks returns at once, and all tables are cleared. */
    method FinishStop()
      requires Valid() && !running && plain.manager.Absent? && !plain.adding
      modifies this
      ensures Valid() && Did(Cleared)
      ensures old(activeCallbacks) == 0 && activeCallbacks == 0
      ensures active == map[] && pending == {} && queue == multiset{}
    {
      queue := multiset{};
      active := map[];
      pending := {};
      Record(Cleared);
    }
  }

  lemma NothingQueued(queue: multiset<Task>, s: Plain)
    requires HeapMatches(queue, s.entries) && IdsMatch(s) && queue == multiset{}
    ensures s.entries == map[]
  {
    QueuedEntries(queue, s);
    assert forall id :: id !in s.entries;
  }

  lemma QueuedEntries(queue: multiset<Task>, s: Plain)
    requires HeapMatches(queue, s.entries) && IdsMatch(s)
    ensures forall id :: id in s.entries ==> s.entries[id].(isCancelled := false) in queue
  {
    forall id | id in s.entries
      ensures s.entries[id].(isCancelled := false) in queue
    {
      assert s.entries[id].(isCancelled := false).id == id;
    }
  }

  lemma PopMatches(queue: multiset<Task>, s: Plain, pending: set<int>, next: Task, now: Time)
    requires HeapMatches(queue, s.entries) && IdsMatch(s) && PendingMatches(pending, s)
    requires next.id in s.entries && next == s.entries[next.id].(isCancelled := false)
    requires s.manager.Inside? && !s.adding && Next(s, next.id, now)
    ensures HeapMatches(queue - multiset{next}, s.entries - {next.id})
    ensures var e := if s.entries[next.id].isCancelled then Skipped(next.id, now) else Taken(next.id, now);
            Allowed(s, e) && Apply(s, e).entries == s.entries - {next.id} && IdsMatch(Apply(s, e)) &&
            PendingMatches(if s.entries[next.id].isCancelled then pending - {next.id} else pending, Apply(s, e))
  {
    HeapWithout(queue, s.entries, next);
  }

  lemma AddMatches(queue: multiset<Task>, s: Plain, pending: set<int>, expiry: Time)
    requires HeapMatches(queue, s.entries) && IdsMatch(s) && PendingMatches(pending, s)
    ensures var id := s.added + 1; var t := Apply(s, Added(id, expiry));
            HeapMatches(queue + multiset{Task(id, expiry, false)}, t.entries) && IdsMatch(t) &&
            PendingMatches(pending + {id}, t)
  {
  }

  lemma HeapWithout(queue: multiset<Task>, active: map<int, Task>, next: Task)
    requires HeapMatches(queue, active)
    requires next.id in active && next == active[next.id].(isCancelled := false)
    ensures HeapMatches(queue - multiset{next}, active - {next.id})
  {
  }

  /** The top of the heap expires no later than any active timer. */
  lemma NextIsLeast(queue: multiset<Task>, s: Plain, next: Task)
    requires HeapMatches(queue, s.entries) && IdsMatch(s)
    requires next in queue && forall t :: t in queue ==> next.expiry <= t.expiry
    ensures next.id in s.entries && next == s.entries[next.id].(isCancelled := false)
    ensures forall k :: k in s.entries ==> next.expiry <= s.entries[k].expiry
  {
    QueuedEntries(queue, s);
    forall k | k in s.entries
      ensures next.expiry <= s.entries[k].expiry
    {
      assert next.expiry <= s.entries[k].(isCancelled := false).expiry;
    }
  }

  // ---------- What every history satisfies ----------

  /** The timer can no longer be taken: it is gone or cancelled, and its id was given out. */
  predicate Spent(s: Plain, id: int)
  {
    id <= s.added && (id in s.entries ==> s.entries[id].isCancelled)
  }

  lemma {:induction false} SpentForGood(history: seq<Event>, i: nat, j: nat, id: int)
    requires Lawful(history) && i <= j <= |history| && Spent(After(history[..i]), id)
    ensures Spent(After(history[..j]), id)
    decreases j - i
  {
    if i < j {
      At(TIMER, START, history, i);
      SpentForGood(history, i + 1, j, id);
    }
  }

  lemma {:induction false} EntriesWereAdded(history: seq<Event>, j: nat)
    requires Lawful(history) && j <= |history|
    ensures forall id :: id in After(history[..j]).entries ==> id <= After(history[..j]).added
    decreases j
  {
    if j > 0 {
      EntriesWereAdded(history, j - 1);
      At(TIMER, START, history, j - 1);
      assert Allowed(After(history[..j - 1]), history[j - 1]);
    }
  }

  /** When cancelTimer returns true the callback never runs afterwards, and no callback runs twice. */
  lemma NeverTakenAgain(history: seq<Event>, i: nat, j: nat, id: int)
    requires Lawful(history) && i < j < |history|
    requires history[i] == Cancelled(id) || (history[i].Taken? && history[i].id == id)
    ensures !(history[j].Taken? && history[j].id == id)
  {
    EntriesWereAdded(history, i);
    At(TIMER, START, history, i);
    assert Allowed(After(history[..i]), history[i]);
    SpentForGood(history, i + 1, j, id);
    At(TIMER, START, history, j);
  }

  /** A callback that runs belongs to a timer that was added and has expired. */
  lemma {:induction false} EntryWasAdded(history: seq<Event>, j: nat, id: int) returns (a: nat)
    requires Lawful(history) && j <= |history| && id in After(history[..j]).entries
    ensures a < j && history[a] == Added(id, After(history[..j]).entries[id].expiry)
    decreases j
  {
    At(TIMER, START, history, j - 1);
    if history[j - 1].Added? && history[j - 1].id == id {
      a := j - 1;
    } else {
      a := EntryWasAdded(history, j - 1, id);
    }
  }

  /** It was added, has expired, and no timer that is still active was added to expire earlier. */
  predicate TakenInOrder(history: seq<Event>, a: nat, j: nat)
    requires a < j < |history|
  {
    && history[j].Taken? && history[a].Added? && history[a].id == history[j].id
    && history[a].expiry <= history[j].at
    && forall b :: 0 <= b < j && history[b].Added? && history[b].id in After(history[..j]).entries ==>
         history[a].expiry <= history[b].expiry
  }

  lemma NeverTakenEarly(history: seq<Event>, j: nat) returns (a: nat)
    requires Lawful(history) && j < |history| && history[j].Taken?
    ensures a < j && TakenInOrder(history, a, j)
  {
    At(TIMER, START, history, j);
    a := EntryWasAdded(history, j, history[j].id);
    forall b | 0 <= b < j && history[b].Added? && history[b].id in After(history[..j]).entries
      ensures history[a].expiry <= history[b].expiry
    {
      var c := EntryWasAdded(history, j, history[b].id);
      AddedOnce(history, b, c);
    }
  }

  lemma {:induction false} AddedGrows(history: seq<Event>, i: nat, j: nat)
    requires Lawful(history) && i <= j <= |history|
    ensures After(history[..i]).added <= After(history[..j]).added
    decreases j - i
  {
    if i < j {
      At(TIMER, START, history, i);
      AddedGrows(history, i + 1, j);
    }
  }

  /** No id is given out twice. */
  lemma AddedOnce(history: seq<Event>, i: nat, j: nat)
    requires Lawful(history) && i < |history| && j < |history|
    requires history[i].Added? && history[j].Added?
    ensures history[i].id == history[j].id <==> i == j
  {
    if i != j {
      var a, b := if i < j then i else j, if i < j then j else i;
      At(TIMER, START, history, a);
      AddedGrows(history, a + 1, b);
      At(TIMER, START, history, b);
    }
  }

  /** Callbacks run one at a time: between two of them the first one has ended. */
  lemma {:induction false} CallbacksDoNotOverlap(history: seq<Event>, i: nat, j: nat) returns (k: nat)
    requires Lawful(history) && i < j < |history|
    requires history[i].CallbackBegan? && history[j].CallbackBegan?
    ensures i < k < j && history[k] == CallbackEnded(history[i].id)
  {
    At(TIMER, START, history, i);
    k := i + 1;
    while k < |history| && history[k] != CallbackEnded(history[i].id)
      invariant i < k <= j
      invariant After(history[..k]).manager == Running(history[i].id)
    {
      At(TIMER, START, history, k);
      k := k + 1;
    }
    At(TIMER, START, history, j);
  }

  predicate IsCallback(e: Event) { e.CallbackBegan? }

  /** Once stop has cleared running_, at most one more callback begins, namely that of the pass the
      manager is in, and none after the manager has been joined, until the timer is started again. */
  lemma CallbacksAfterStop(history: seq<Event>, i: nat, j: nat)
    requires Lawful(history) && i <= j <= |history|
    requires !After(history[..i]).running && Started !in history[i..j]
    ensures var manager := After(history[..i]).manager;
            Count(history[i..j], IsCallback) <= if manager.Inside? || manager.Starting? then 1 else 0
  {
    Slice(TIMER, START, history, i, j);
    forall s: Plain, e: Event | IsDown(s) && !e.Started? && Allowed(s, e)
      ensures IsDown(Apply(s, e))
      ensures (if IsCallback(e) then 1 else 0) + CallbacksLeft(Apply(s, e)) <= CallbacksLeft(s)
    {
      CallbackUsed(s, e);
    }
    CountIsBounded(TIMER, After(history[..i]), history[i..j], (e: Event) => !e.Started?, IsDown, IsCallback,
                   CallbacksLeft);
  }

  predicate IsDown(s: Plain) { !s.running }

  function CallbacksLeft(s: Plain): nat { if s.manager.Inside? || s.manager.Starting? then 1 else 0 }

  lemma CallbackUsed(s: Plain, e: Event)
    requires IsDown(s) && !e.Started? && Allowed(s, e)
    ensures IsDown(Apply(s, e))
    ensures (if IsCallback(e) then 1 else 0) + CallbacksLeft(Apply(s, e)) <= CallbacksLeft(s)
  {
  }

  predicate IsAdding(e: Event) { e.Added? }

  /** No timer is being added, and none can be. */
  predicate IsClosed(s: Plain) { !s.running && !s.adding }

  lemma StaysClosed(s: Plain, e: Event)
    requires IsClosed(s) && !e.Started? && Allowed(s, e)
    ensures IsClosed(Apply(s, e)) && !IsAdding(e)
  {
  }

  /** stop clears the tables under the lock, which addNonBlockingTimer holds from its test of
      running_ on: once they are cleared nothing is added until the timer is started again. */
  lemma NothingAddedAfterClear(history: seq<Event>, i: nat, j: nat)
    requires Lawful(history) && i < j <= |history| && history[i] == Cleared && Started !in history[i + 1..j]
    ensures Count(history[i + 1..j], IsAdding) == 0
  {
    At(TIMER, START, history, i);
    assert Allowed(After(history[..i]), history[i]);
    Slice(TIMER, START, history, i + 1, j);
    forall s: Plain, e: Event | IsClosed(s) && !e.Started? && Allowed(s, e)
      ensures IsClosed(Apply(s, e)) && !IsAdding(e)
    {
      StaysClosed(s, e);
    }
    CountIsBounded(TIMER, After(history[..i + 1]), history[i + 1..j], (e: Event) => !e.Started?, IsClosed, IsAdding,
                   (s: Plain) => 0);
  }

  predicate IsTaking(e: Event, id: int)
  {
    e.Taken? && e.id == id
  }

  /** Whatever calls and passes a timer has been through, in whatever order its threads made them:
      a callback runs at most once, never once its timer was cancelled, never early and never
      while another one runs. */
  lemma EveryTimerKeepsItsPromises(timer: GracefulTimer)
    requires timer.Valid()
    ensures var h := timer.history;
      && (forall i, j :: 0 <= i < j < |h| && (h[i].Cancelled? || h[i].Taken?) ==> !IsTaking(h[j], h[i].id))
      && (forall j :: 0 <= j < |h| && h[j].Taken? ==>
            exists a :: 0 <= a < j && TakenInOrder(h, a, j))
      && (forall i, j :: 0 <= i < j < |h| && h[i].CallbackBegan? && h[j].CallbackBegan? ==>
            exists k :: i < k < j && h[k] == CallbackEnded(h[i].id))
      && (timer.plain.manager.Absent? ==> timer.activeCallbacks == 0)
  {
    var h := timer.history;
    forall i, j | 0 <= i < j < |h| && (h[i].Cancelled? || h[i].Taken?)
      ensures !IsTaking(h[j], h[i].id)
    {
      NeverTakenAgain(h, i, j, h[i].id);
    }
    forall j | 0 <= j < |h| && h[j].Taken?
      ensures exists a :: 0 <= a < j && TakenInOrder(h, a, j)
    {
      var a := NeverTakenEarly(h, j);
    }
    forall i, j | 0 <= i < j < |h| && h[i].CallbackBegan? && h[j].CallbackBegan?
      ensures exists k :: i < k < j && h[k] == CallbackEnded(h[i].id)
    {
      var k := CallbacksDoNotOverlap(h, i, j);
    }
  }
}
