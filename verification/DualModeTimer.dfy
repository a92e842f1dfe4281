/** The DualModeTimer: a deadline heap with lazy deletion beside a map of the live timers,
    proved to behave as a plain map from timer ids to deadlines. Every method is one critical
    section under tasks_mutex_ or one access to running_, and appends what it did to the history of
    the timer, so a history is one interleaving of the threads. */
module DualModeTimer {
  import opened Histories

  type Time = int

  datatype Mode = Blocking | NonBlocking

  datatype Task = Task(id: int, mode: Mode, duration: int, startTime: Time, completed: bool) {
    function Deadline(): Time { startTime + duration }
  }

  // ---------- The plain map ----------

  /** Where the manager thread stands: there is none, or it is about to test running_, or it found
      it set and is in a pass of its loop. */
  datatype Manager = Absent | Testing | Inside

  /** What happened in one critical section. */
  datatype Event =
    | Started                   // start launched the manager thread
    | Stopped                   // stop cleared running_
    | Passed                    // the manager found running_ set
    | Left                      // the manager found running_ clear and ended
    | Added(task: Task)
    | Cancelled(id: int)        // cancelTimer returned true
    | CancelMissed(id: int)     // cancelTimer returned false
    | CancelledAll
    | Fired(id: int, at: Time)  // the manager started the callback
    | Skipped(id: int)          // the manager dropped the entry of a cancelled timer
    | Waited(at: Time)          // the manager waits for the next deadline
    | Idle                      // the manager waits for the first timer

  /** live: the pending timers; stale: cancelled timers that still have a heap entry;
      added: the number of timers added, which is the last id given out. */
  datatype Plain = Plain(live: map<int, Task>, stale: map<int, Task>, added: int, running: bool, manager: Manager)

  const START := Plain(map[], map[], 0, false, Absent)

  function Apply(s: Plain, e: Event): Plain
  {
    match e
    case Started => s.(running := true, manager := Testing)
    case Stopped => s.(running := false)
    case Passed => s.(manager := Inside)
    case Left => s.(manager := Absent)
    case Added(task) => s.(live := s.live[task.id := task], added := task.id)
    case Cancelled(id) =>
      s.(live := s.live - {id}, stale := if id in s.live then s.stale[id := s.live[id]] else s.stale)
    case CancelMissed(_) => s
    case CancelledAll => s.(live := map[], stale := map[])
    case Fired(id, _) => s.(live := s.live - {id}, manager := Testing)
    case Skipped(id) => s.(stale := s.stale - {id}, manager := Testing)
    case Waited(_) => s.(manager := Testing)
    case Idle => s.(manager := Testing)
  }

  /** The events of one pass of the manager. */
  predicate IsPass(e: Event)
  {
    e.Fired? || e.Skipped? || e.Waited? || e.Idle?
  }

  /** The events the plain map allows. */
  predicate Allowed(s: Plain, e: Event)
  {
    (IsPass(e) ==> s.manager.Inside?) &&
    match e
    case Started => !s.running && s.manager.Absent?
    case Stopped => s.running
    case Passed => s.running && s.manager.Testing?
    case Left => !s.running && s.manager.Testing?
    case Added(task) => task.id == s.added + 1 && task.mode == NonBlocking && !task.completed
    case Cancelled(id) => id in s.live
    case CancelMissed(id) => id !in s.live
    case CancelledAll => true
    case Fired(id, at) =>
      // due, and no pending or cancelled entry is due before it
      && id in s.live && s.live[id].Deadline() <= at
      && (forall k :: k in s.live ==> s.live[id].Deadline() <= s.live[k].Deadline())
      && (forall k :: k in s.stale ==> s.live[id].Deadline() <= s.stale[k].Deadline())
    case Skipped(id) =>
      && id in s.stale
      && (forall k :: k in s.live ==> s.stale[id].Deadline() <= s.live[k].Deadline())
    case Waited(at) =>
      && s.live.Keys + s.stale.Keys != {}
      && (forall k :: k in s.live ==> at < s.live[k].Deadline())
    case Idle => s.live == map[] && s.stale == map[]
  }

  const TIMER: Machine<Plain, Event> := Machine(Allowed, Apply)

  function After(history: seq<Event>): Plain
  {
    Histories.After(TIMER, START, history)
  }

  predicate Lawful(history: seq<Event>)
  {
    Histories.Lawful(TIMER, START, history)
  }

  // ---------- The timer ----------

  /** The entry stands for a pending or a cancelled timer. */
  predicate HasEntry(s: Plain, t: Task)
  {
    (t.id in s.live && s.live[t.id] == t) || (t.id in s.stale && s.stale[t.id] == t)
  }

  /** The heap holds exactly one entry for each pending and each cancelled timer. */
  ghost predicate HeapMatches(tasks: multiset<Task>, s: Plain)
  {
    forall t :: tasks[t] == if HasEntry(s, t) then 1 else 0
  }

  ghost predicate IdsMatch(s: Plain)
  {
    && (forall id :: id in s.live ==>
          id <= s.added && s.live[id].id == id && s.live[id].mode == NonBlocking && !s.live[id].completed)
    && (forall id :: id in s.stale ==> id <= s.added && s.stale[id].id == id && id !in s.live)
  }

  class DualModeTimer {
    var running: bool
    var tasks: multiset<Task>
    var active: map<int, Task>
    var nextId: int
    ghost var plain: Plain         // the plain map this timer stands for
    ghost var history: seq<Event>  // everything that happened to it

    ghost predicate Valid()
      reads this
    {
      Agrees() && Recorded(TIMER, START, history, plain)
    }

    /** The fields follow the plain map. */
    ghost predicate Agrees()
      reads this
    {
      && nextId == plain.added
      && active == plain.live
      && running == plain.running
      && HeapMatches(tasks, plain)
      && IdsMatch(plain)
    }

    /** The call was one event, which the plain map allows. */
    twostate predicate Did(e: Event)
      reads this
    {
      history == old(history) + [e] && Does(TIMER, old(plain), e, plain)
    }

    constructor ()
      ensures Valid() && plain == START && history == []
    {
      running := false;
      tasks := multiset{};
      active := map[];
      nextId := 0;
      plain, history := START, [];
    }

    /** The end of a method: the event enters the plain map and the history. */
    ghost method Record(e: Event)
      requires Recorded(TIMER, START, history, plain) && Allowed(plain, e)
      modifies this`plain, this`history
      ensures Recorded(TIMER, START, history, plain) && Did(e)
    {
      RecordNext(TIMER, START, history, plain, e);
      plain, history := Apply(plain, e), history + [e];
    }

    /** A timer whose manager thread has not been joined yet must not be started again. */
    method Start()
      requires Valid() && (!running ==> plain.manager.Absent?)
      modifies this
      ensures Valid()
      ensures if old(running) then plain == old(plain) && history == old(history) else Did(Started)
      ensures running && active == old(active) && tasks == old(tasks) && (old(running) || plain.manager.Testing?)
    {
      if running { return; }
      running := true;
      Record(Started);
    }

    /** The parts of stop before it joins the manager thread, when no other thread interferes. */
    method Stop()
      requires Valid()
      modifies this
      ensures Valid() && !running
      ensures history == old(history) + if old(running) then [Stopped, CancelledAll] else []
      ensures old(running) ==> plain == Apply(Apply(old(plain), Stopped), CancelledAll)
      ensures active == (if old(running) then map[] else old(active)) && plain.manager == old(plain.manager)
    {
      var stopped := SignalStop();
      if !stopped { return; }
      CancelAllTimers();
    }

    /** The first part of stop. */
    method SignalStop() returns (stopped: bool)
      requires Valid()
      modifies this
      ensures Valid() && stopped == old(running)
      ensures if stopped then Did(Stopped) else plain == old(plain) && history == old(history)
      ensures !running && active == old(active) && tasks == old(tasks) && plain.manager == old(plain.manager)
    {
      if !running { return false; }
      running := false;
      Record(Stopped);
      stopped := true;
    }

    method AddNonBlockingTimer(duration: int, now: Time) returns (id: int)
      requires Valid()
      modifies this
      ensures Valid() && Did(Added(Task(id, NonBlocking, duration, now, false)))
      ensures id !in old(active) && active == old(active)[id := Task(id, NonBlocking, duration, now, false)]
      ensures tasks == old(tasks) + multiset{Task(id, NonBlocking, duration, now, false)}
    {
      AddKeepsTables(tasks, plain, Task(nextId + 1, NonBlocking, duration, now, false));
      nextId := nextId + 1;
      id := nextId;
      var task := Task(id, NonBlocking, duration, now, false);
      tasks := tasks + multiset{task};
      active := active[id := task];
      Record(Added(task));
    }

    method CancelTimer(timerId: int) returns (found: bool)
      requires Valid()
      modifies this
      ensures Valid() && Did(if found then Cancelled(timerId) else CancelMissed(timerId))
      ensures found <==> timerId in old(active)
      ensures active == old(active) - {timerId}
    {
      found := timerId in active;
      if found {
        active := active - {timerId};
        Record(Cancelled(timerId));
      } else {
        Record(CancelMissed(timerId));
      }
    }

    method CancelAllTimers()
      requires Valid()
      modifies this
      ensures Valid() && Did(CancelledAll) && active == map[] && tasks == multiset{} && running == old(running)
      ensures plain.manager == old(plain.manager)
    {
      tasks := multiset{};
      active := map[];
      Record(CancelledAll);
    }

    /** The test of the manager loop. */
    method TestRunning() returns (go: bool)
      requires Valid() && plain.manager.Testing?
      modifies this
      ensures Valid() && go == running && Did(if go then Passed else Left)
      ensures running == old(running) && active == old(active) && tasks == old(tasks)
      ensures if go then plain.manager.Inside? else plain.manager.Absent?
    {
      go := running;
      Record(if go then Passed else Left);
    }

    method GetActiveTimerCount() returns (count: nat)
      requires Valid()
      ensures count == |active|
    {
      count := |active|;
    }

    /** tasks_.top(): some entry with the least deadline. */
    method Top() returns (next: Task)
      requires tasks != multiset{}
      ensures next in tasks
      ensures forall t :: t in tasks ==> next.startTime + next.duration <= t.startTime + t.duration
    {
      LeastExists(tasks, (t: Task) => t.Deadline());
      next :| next in tasks && forall t :: t in tasks ==> next.Deadline() <= t.Deadline();
    }

    /** One pass of the manager loop. stop may have cleared running_ since the test. */
    method ManagerIteration(now: Time) returns (e: Event)
      requires Valid() && plain.manager.Inside?
      modifies this
      ensures Valid() && IsPass(e) && Did(e)
      ensures e.Idle? || e == Waited(now) || e.Skipped? || (e.Fired? && e.at == now)
      ensures e.Idle? <==> old(tasks) == multiset{}
      ensures e.Waited? <==> old(tasks) != multiset{} && forall t :: t in old(tasks) ==> now < t.startTime + t.duration
      ensures e.Fired? ==>
                && e.id in old(active)
                && var fired := old(active)[e.id];
                   && fired.startTime + fired.duration <= now
                   && forall k :: k in old(active) ==>
                        fired.startTime + fired.duration <= old(active)[k].startTime + old(active)[k].duration
      ensures e.Skipped? ==> e.id !in old(active)
    {
      if tasks == multiset{} {
        NothingPending(tasks, plain);
        e := Idle;
        Record(e);
      } else {
        e := LookAtTop(now);
      }
    }

    /** The part of the pass for a heap that is not empty. */
    method LookAtTop(now: Time) returns (e: Event)
      requires Valid() && plain.manager.Inside? && tasks != multiset{}
      modifies this
      ensures Valid() && IsPass(e) && Did(e)
      ensures e == Waited(now) || e.Skipped? || (e.Fired? && e.at == now)
      ensures e.Skipped? ==> e.id !in old(active)
      ensures e.Waited? <==> forall t :: t in old(tasks) ==> now < t.startTime + t.duration
    {
      var next := Top();
      NextIsLeast(tasks, plain, next);
      if now >= next.Deadline() {
        e := Expire(next, now);
      } else {
        e := Waited(now);
        Record(e);
      }
    }

    /** The branch of the pass for an entry that is due: a live timer fires, the entry of a
        cancelled one is dropped. */
    method Expire(next: Task, now: Time) returns (e: Event)
      requires Valid() && plain.manager.Inside? && HasEntry(plain, next) && now >= next.Deadline()
      requires forall k :: k in plain.live ==> next.Deadline() <= plain.live[k].Deadline()
      requires forall k :: k in plain.stale ==> next.Deadline() <= plain.stale[k].Deadline()
      modifies this
      ensures Valid() && Did(e)
      ensures e == if next.id in old(active) then Fired(next.id, now) else Skipped(next.id)
    {
      PopKeepsTables(tasks, plain, next, now);
      tasks := tasks - multiset{next};
      e := Skipped(next.id);
      if next.id in active && !active[next.id].completed {
        var task := active[next.id];
        active := active - {next.id};
        if task.mode == NonBlocking {
          e := Fired(task.id, now);
        }
      }
      Record(e);
    }
  }

  lemma AddKeepsTables(tasks: multiset<Task>, s: Plain, task: Task)
    requires HeapMatches(tasks, s) && IdsMatch(s) && Allowed(s, Added(task))
    ensures HeapMatches(tasks + multiset{task}, Apply(s, Added(task))) && IdsMatch(Apply(s, Added(task)))
  {
  }

  lemma PopKeepsTables(tasks: multiset<Task>, s: Plain, next: Task, now: Time)
    requires HeapMatches(tasks, s) && IdsMatch(s)
    requires s.manager.Inside? && HasEntry(s, next) && now >= next.Deadline()
    requires forall k :: k in s.live ==> next.Deadline() <= s.live[k].Deadline()
    requires forall k :: k in s.stale ==> next.Deadline() <= s.stale[k].Deadline()
    ensures var e := if next.id in s.live then Fired(next.id, now) else Skipped(next.id);
            Allowed(s, e) && HeapMatches(tasks - multiset{next}, Apply(s, e)) && IdsMatch(Apply(s, e))
  {
  }

  lemma NothingPending(tasks: multiset<Task>, s: Plain)
    requires HeapMatches(tasks, s) && IdsMatch(s) && tasks == multiset{}
    ensures s.live == map[] && s.stale == map[]
  {
    forall id
      ensures id !in s.live && id !in s.stale
    {
      assert id in s.live ==> HasEntry(s, s.live[id]);
      assert id in s.stale ==> HasEntry(s, s.stale[id]);
    }
  }

  /** The top of the heap is due no later than any pending or cancelled timer. */
  lemma NextIsLeast(tasks: multiset<Task>, s: Plain, next: Task)
    requires HeapMatches(tasks, s) && IdsMatch(s)
    requires next in tasks && forall t :: t in tasks ==> next.Deadline() <= t.Deadline()
    ensures HasEntry(s, next)
    ensures forall k :: k in s.live ==> next.Deadline() <= s.live[k].Deadline()
    ensures forall k :: k in s.stale ==> next.Deadline() <= s.stale[k].Deadline()
  {
    assert forall k :: k in s.live ==> HasEntry(s, s.live[k]) && s.live[k] in tasks;
    assert forall k :: k in s.stale ==> HasEntry(s, s.stale[k]) && s.stale[k] in tasks;
  }

  // ---------- What every history of calls satisfies ----------

  /** An id that was given out and is not pending any more never becomes pending again. */
  lemma {:induction false} GoneForGood(history: seq<Event>, i: nat, j: nat, id: int)
    requires Lawful(history) && i <= j <= |history|
    requires id <= After(history[..i]).added && id !in After(history[..i]).live
    ensures id <= After(history[..j]).added && id !in After(history[..j]).live
    decreases j - i
  {
    if i < j {
      At(TIMER, START, history, i);
      GoneForGood(history, i + 1, j, id);
    }
  }

  /** The ids pending at any point were given out before. */
  lemma {:induction false} LiveIdsWereAdded(history: seq<Event>, j: nat)
    requires Lawful(history) && j <= |history|
    ensures forall id :: id in After(history[..j]).live ==> id <= After(history[..j]).added
    decreases j
  {
    if j > 0 {
      LiveIdsWereAdded(history, j - 1);
      At(TIMER, START, history, j - 1);
      assert Allowed(After(history[..j - 1]), history[j - 1]);
    }
  }

  /** A timer fires at most once, and never after cancelTimer returned true for it. */
  lemma NeverFiresAgain(history: seq<Event>, i: nat, j: nat, id: int)
    requires Lawful(history) && i < j < |history|
    requires history[i] == Cancelled(id) || (history[i].Fired? && history[i].id == id)
    ensures !(history[j].Fired? && history[j].id == id)
    ensures history[j] != Cancelled(id)
  {
    LiveIdsWereAdded(history, i);
    At(TIMER, START, history, i);
    assert Allowed(After(history[..i]), history[i]);
    GoneForGood(history, i + 1, j, id);
    At(TIMER, START, history, j);
  }

  /** No timer added before a cancelAllTimers fires after it. */
  lemma CancelAllIsFinal(history: seq<Event>, a: nat, i: nat, j: nat)
    requires Lawful(history) && a < i < j < |history|
    requires history[a].Added? && history[i] == CancelledAll
    ensures !(history[j].Fired? && history[j].id == history[a].task.id)
  {
    var id := history[a].task.id;
    AddedGrows(history, a + 1, i);
    At(TIMER, START, history, a);
    At(TIMER, START, history, i);
    GoneForGood(history, i + 1, j, id);
    At(TIMER, START, history, j);
  }

  lemma {:induction false} AddedGrows(history: seq<Event>, i: nat, j: nat)
    requires Lawful(history) && i <= j <= |history|
    ensures After(history[..i]).added <= After(history[..j]).added
    decreases j - i
  {
    if i < j {
      At(TIMER, START, history, i);
      AddedGrows(history, i + 1, j);
    }
  }

  /** Where a pending timer comes from. */
  lemma {:induction false} LiveWasAdded(history: seq<Event>, j: nat, id: int) returns (a: nat)
    requires Lawful(history) && j <= |history|
    requires id in After(history[..j]).live
    ensures a < j && history[a] == Added(After(history[..j]).live[id]) && history[a].task.id == id
    decreases j
  {
    At(TIMER, START, history, j - 1);
    if history[j - 1].Added? && history[j - 1].task.id == id {
      a := j - 1;
    } else {
      a := LiveWasAdded(history, j - 1, id);
    }
  }

  /** The firing at j is that of the timer added at a, is not early, and every timer that is still
      pending then is due no earlier. */
  predicate FiresInOrder(history: seq<Event>, a: nat, j: nat)
    requires a < j < |history|
  {
    && history[j].Fired? && history[a].Added? && history[a].task.id == history[j].id
    && history[a].task.startTime + history[a].task.duration <= history[j].at
    && forall b :: 0 <= b < j && history[b].Added? && history[b].task.id in After(history[..j]).live ==>
         history[a].task.startTime + history[a].task.duration <= history[b].task.startTime + history[b].task.duration
  }

  /** A timer fires only after it was added and never before its deadline; every timer that is
      still pending then is due no earlier. */
  lemma FiresOnTimeInOrder(history: seq<Event>, j: nat) returns (a: nat)
    requires Lawful(history) && j < |history| && history[j].Fired?
    ensures a < j && FiresInOrder(history, a, j)
  {
    var live := After(history[..j]).live;
    At(TIMER, START, history, j);
    a := LiveWasAdded(history, j, history[j].id);
    forall b | 0 <= b < j && history[b].Added? && history[b].task.id in live
      ensures history[a].task.Deadline() <= history[b].task.Deadline()
    {
      var c := LiveWasAdded(history, j, history[b].task.id);
      AddedOnce(history, b, c);
    }
  }

  /** No id is given out twice. */
  lemma AddedOnce(history: seq<Event>, i: nat, j: nat)
    requires Lawful(history) && i < |history| && j < |history|
    requires history[i].Added? && history[j].Added?
    ensures history[i].task.id == history[j].task.id <==> i == j
  {
    if i != j {
      var a, b := if i < j then i else j, if i < j then j else i;
      At(TIMER, START, history, a);
      AddedGrows(history, a + 1, b);
      At(TIMER, START, history, b);
    }
  }

  predicate Ends(e: Event, id: int)
  {
    e == CancelledAll || e == Cancelled(id) || (e.Fired? && e.id == id)
  }

  /** A timer is pending exactly when it was added and nothing ended it since. */
  lemma {:induction false} PendingExactly(history: seq<Event>, a: nat, j: nat)
    requires Lawful(history) && a < j <= |history| && history[a].Added?
    ensures history[a].task.id in After(history[..j]).live <==>
              forall k :: a < k < j ==> !Ends(history[k], history[a].task.id)
    decreases j
  {
    var id := history[a].task.id;
    At(TIMER, START, history, j - 1);
    if j - 1 > a {
      PendingExactly(history, a, j - 1);
      if history[j - 1].Added? {
        AddedOnce(history, a, j - 1);
      }
      LiveAfterEvent(After(history[..j - 1]), history[j - 1], id);
    }
  }

  lemma LiveAfterEvent(s: Plain, e: Event, id: int)
    requires !(e.Added? && e.task.id == id)
    ensures id in Apply(s, e).live <==> id in s.live && !Ends(e, id)
  {
  }

  /** Only cancelled timers leave a stale entry in the heap. */
  lemma {:induction false} StaleWasCancelled(history: seq<Event>, j: nat, id: int) returns (c: nat)
    requires Lawful(history) && j <= |history|
    requires id in After(history[..j]).stale
    ensures c < j && history[c] == Cancelled(id)
    decreases j
  {
    At(TIMER, START, history, j - 1);
    if history[j - 1] == Cancelled(id) {
      c := j - 1;
    } else {
      c := StaleWasCancelled(history, j - 1, id);
    }
  }

  predicate IsSkip(e: Event) { e.Skipped? }
  predicate IsCancel(e: Event) { e.Cancelled? }

  /** The passes the manager spends on cancelled entries are at most the cancellations. */
  lemma {:induction false} SkipsAreBounded(history: seq<Event>)
    requires Lawful(history)
    ensures Count(history, IsSkip) + |After(history).stale| <= Count(history, IsCancel)
    decreases |history|
  {
    if history != [] {
      var n := |history| - 1;
      At(TIMER, START, history, n);
      assert history == history[..n] + [history[n]] && history[..n + 1] == history;
      SkipsAreBounded(history[..n]);
      CountExtend(history[..n], history[n], IsSkip);
      CountExtend(history[..n], history[n], IsCancel);
      StaleSize(After(history[..n]), history[n]);
    }
  }

  /** A pass of the manager either starts a due callback or drops a cancelled entry; it waits
      only when no pending timer is due. */
  lemma ManagerNeverWaitsOnDueTimer(history: seq<Event>, j: nat, id: int)
    requires Lawful(history) && j < |history| && id in After(history[..j]).live
    ensures var task := After(history[..j]).live[id];
            history[j].Waited? ==> history[j].at < task.startTime + task.duration
    ensures !history[j].Idle?
  {
    At(TIMER, START, history, j);
  }

  /** Once stop has cleared running_, at most the pass the manager is in has an effect, and
      none after the manager has been joined, until the timer is started again. */
  lemma PassesAfterStop(history: seq<Event>, i: nat, j: nat)
    requires Lawful(history) && i <= j <= |history|
    requires !After(history[..i]).running && Started !in history[i..j]
    ensures Count(history[i..j], IsPass) <= if After(history[..i]).manager.Inside? then 1 else 0
  {
    Slice(TIMER, START, history, i, j);
    forall s: Plain, e: Event | IsDown(s) && !e.Started? && Allowed(s, e)
      ensures IsDown(Apply(s, e)) && (if IsPass(e) then 1 else 0) + PassesLeft(Apply(s, e)) <= PassesLeft(s)
    {
      PassUsed(s, e);
    }
    CountIsBounded(TIMER, After(history[..i]), history[i..j], (e: Event) => !e.Started?, IsDown, IsPass, PassesLeft);
  }

  predicate IsDown(s: Plain) { !s.running }

  function PassesLeft(s: Plain): nat { if s.manager.Inside? then 1 else 0 }

  lemma PassUsed(s: Plain, e: Event)
    requires IsDown(s) && !e.Started? && Allowed(s, e)
    ensures IsDown(Apply(s, e)) && (if IsPass(e) then 1 else 0) + PassesLeft(Apply(s, e)) <= PassesLeft(s)
  {
  }

  // ---------- A due timer fires soon ----------

  /** The timers due no later than d. */
  function DueBy(tasks: map<int, Task>, d: Time): set<int>
  {
    set id | id in tasks && tasks[id].startTime + tasks[id].duration <= d
  }

  /** The number of heap entries due no later than d. */
  function Ahead(s: Plain, d: Time): nat
  {
    |DueBy(s.live, d)| + |DueBy(s.stale, d)|
  }

  /** The pass takes an entry from the heap. */
  predicate IsPop(e: Event) { e.Fired? || e.Skipped? }

  predicate IsAddedBy(e: Event, d: Time) { e.Added? && e.task.startTime + e.task.duration <= d }

  function AddedBy(d: Time): Event -> bool
  {
    (e: Event) => IsAddedBy(e, d)
  }

  lemma DueByWith(tasks: map<int, Task>, task: Task, d: Time)
    requires task.id !in tasks
    ensures DueBy(tasks[task.id := task], d) == DueBy(tasks, d) + if task.Deadline() <= d then {task.id} else {}
    ensures task.id !in DueBy(tasks, d)
  {
  }

  lemma DueByWithout(tasks: map<int, Task>, id: int, d: Time)
    requires id in tasks
    ensures DueBy(tasks, d) == DueBy(tasks - {id}, d) + if tasks[id].Deadline() <= d then {id} else {}
    ensures id !in DueBy(tasks - {id}, d)
  {
  }

  lemma AheadAfterCancel(s: Plain, id: int, d: Time)
    requires IdsMatch(s) && id in s.live
    ensures Ahead(Apply(s, Cancelled(id)), d) == Ahead(s, d)
  {
    DueByWithout(s.live, id, d);
    DueByWith(s.stale, s.live[id], d);
  }

  lemma AheadAfterAdd(s: Plain, task: Task, d: Time)
    requires IdsMatch(s) && Allowed(s, Added(task))
    ensures Ahead(Apply(s, Added(task)), d) == Ahead(s, d) + if task.Deadline() <= d then 1 else 0
  {
    assert task.id !in s.live;
    DueByWith(s.live, task, d);
  }

  /** While a timer is pending, each pass that takes an entry takes one due no later than it, and
      only added timers put in another one. */
  lemma AheadAfter(s: Plain, e: Event, id: int)
    requires Allowed(s, e) && IdsMatch(s) && id in s.live && !Ends(e, id)
    ensures var d := s.live[id].Deadline();
            Ahead(Apply(s, e), d) + (if IsPop(e) then 1 else 0) <= Ahead(s, d) + (if IsAddedBy(e, d) then 1 else 0)
  {
    var d := s.live[id].Deadline();
    match e
    case Added(task) => AheadAfterAdd(s, task, d);
    case Cancelled(other) => AheadAfterCancel(s, other, d);
    case Fired(other, _) => DueByWithout(s.live, other, d);
    case Skipped(other) => DueByWithout(s.stale, other, d);
    case _ =>
  }

  /** As long as nothing ends a pending timer, the passes that take an entry are fewer than the heap
      entries due no later than it, counting those added in the meantime. With as many passes it
      has fired or something has ended it; ManagerNeverWaitsOnDueTimer says that no pass at or after
      its deadline is wasted. */
  lemma {:induction false} FiresSoon(history: seq<Event>, i: nat, j: nat, id: int)
    requires Lawful(history) && i <= j <= |history| && id in After(history[..i]).live
    requires forall k :: i <= k < j ==> !Ends(history[k], id)
    ensures id in After(history[..j]).live
    ensures After(history[..j]).live[id] == After(history[..i]).live[id]
    ensures var s, task := After(history[..i]), After(history[..i]).live[id];
            var d := task.startTime + task.duration;
      && Count(history[i..j], IsPop) + Ahead(After(history[..j]), d) <= Ahead(s, d) + Count(history[i..j], AddedBy(d))
      && Ahead(After(history[..j]), d) >= 1
    decreases j - i
  {
    var s, d := After(history[..i]), After(history[..i]).live[id].Deadline();
    if i < j {
      At(TIMER, START, history, i);
      IdsAlwaysMatch(history, i);
      AheadAfter(s, history[i], id);
      assert Allowed(s, history[i]);
      assert history[i..j][1..] == history[i + 1..j];
      FiresSoon(history, i + 1, j, id);
    } else {
      assert id in DueBy(s.live, d);
    }
  }

  lemma {:induction false} IdsAlwaysMatch(history: seq<Event>, i: nat)
    requires Lawful(history) && i <= |history|
    ensures IdsMatch(After(history[..i]))
    decreases i
  {
    if i > 0 {
      IdsAlwaysMatch(history, i - 1);
      At(TIMER, START, history, i - 1);
      IdsStayMatched(After(history[..i - 1]), history[i - 1]);
    }
  }

  lemma IdsStayMatched(s: Plain, e: Event)
    requires IdsMatch(s) && Allowed(s, e)
    ensures IdsMatch(Apply(s, e))
  {
  }

  predicate IsFiring(e: Event, id: int)
  {
    e.Fired? && e.id == id
  }

  /** Whatever calls and passes a timer has been through, in whatever order its threads made them:
      its timers fire at most once, never once cancelled, alone or all together, never early,
      and always the one due first. */
  lemma EveryTimerKeepsItsPromises(timer: DualModeTimer)
    requires timer.Valid()
    ensures var h := timer.history;
      && (forall i, j :: 0 <= i < j < |h| && (h[i].Cancelled? || h[i].Fired?) ==> !IsFiring(h[j], h[i].id))
      && (forall a, i, j :: 0 <= a < i < j < |h| && h[a].Added? && h[i] == CancelledAll ==>
            !IsFiring(h[j], h[a].task.id))
      && (forall j :: 0 <= j < |h| && h[j].Fired? ==>
            exists a :: 0 <= a < j && FiresInOrder(h, a, j))
      && (forall a :: 0 <= a < |h| && h[a].Added? ==>
            (h[a].task.id in timer.plain.live <==> forall k :: a < k < |h| ==> !Ends(h[k], h[a].task.id)))
  {
    var h := timer.history;
    forall i, j | 0 <= i < j < |h| && (h[i].Cancelled? || h[i].Fired?)
      ensures !IsFiring(h[j], h[i].id)
    {
      NeverFiresAgain(h, i, j, h[i].id);
    }
    forall a, i, j | 0 <= a < i < j < |h| && h[a].Added? && h[i] == CancelledAll
      ensures !IsFiring(h[j], h[a].task.id)
    {
      CancelAllIsFinal(h, a, i, j);
    }
    forall j | 0 <= j < |h| && h[j].Fired?
      ensures exists a :: 0 <= a < j && FiresInOrder(h, a, j)
    {
      var a := FiresOnTimeInOrder(h, j);
    }
    forall a | 0 <= a < |h| && h[a].Added?
      ensures h[a].task.id in timer.plain.live <==> forall k :: a < k < |h| ==> !Ends(h[k], h[a].task.id)
    {
      assert h[..|h|] == h;
      PendingExactly(h, a, |h|);
    }
  }

  lemma StaleSize(s: Plain, e: Event)
    requires Allowed(s, e)
    ensures |Apply(s, e).stale| <= |s.stale| + (if e.Cancelled? then 1 else 0) - (if e.Skipped? then 1 else 0)
  {
    match e
    case Cancelled(id) => SizeWith(s.stale, id, s.live[id]);
    case Skipped(id) => SizeWithout(s.stale, id);
    case _ =>
  }

  lemma SizeWith(tasks: map<int, Task>, id: int, task: Task)
    ensures |tasks[id := task]| <= |tasks| + 1
  {
    assert tasks[id := task].Keys == tasks.Keys + {id};
    assert |tasks[id := task]| == |tasks[id := task].Keys| && |tasks| == |tasks.Keys|;
  }

  lemma SizeWithout(tasks: map<int, Task>, id: int)
    requires id in tasks
    ensures |tasks - {id}| == |tasks| - 1
  {
    assert (tasks - {id}).Keys == tasks.Keys - {id};
    assert |tasks - {id}| == |(tasks - {id}).Keys| && |tasks| == |tasks.Keys|;
  }
}
