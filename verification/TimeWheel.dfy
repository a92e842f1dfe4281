/** The time wheel: a ring of slots with a list of callbacks each, proved to behave as a table of
    callbacks with the number of the tick at which each is due. Ticks run without reentry: no
    callback adds a timer. */
module TimeWheel {
  import opened Arithmetic

  /** Callbacks are told apart by a tag. */
  type Callback = nat

  /** A timer that was added when tick number at was the next one; delay: its delay in ms; t: the
      delay in intervals; due: the tick at which the wheel calls it. */
  datatype Entry = Entry(callback: Callback, at: int, delay: int, t: int, due: int)

  /** A call, with the number of its tick. */
  datatype Call = Call(entry: Entry, tick: int)

  /** The entries due at tick k, in the order in which they were added. */
  function DueEntries(table: seq<Entry>, k: int): seq<Entry>
  {
    if table == [] then []
    else
      var n := |table| - 1;
      DueEntries(table[..n], k) + if table[n].due == k then [table[n]] else []
  }

  /** Their callbacks. */
  function Due(table: seq<Entry>, k: int): seq<Callback>
  {
    if table == [] then []
    else
      var n := |table| - 1;
      Due(table[..n], k) + if table[n].due == k then [table[n].callback] else []
  }

  /** The table without the entries due at tick k. */
  function Later(table: seq<Entry>, k: int): seq<Entry>
  {
    if table == [] then []
    else
      var n := |table| - 1;
      Later(table[..n], k) + if table[n].due == k then [] else [table[n]]
  }

  /** What runs at tick k. */
  function AtTick(entries: seq<Entry>, k: int): seq<Call>
  {
    seq(|entries|, i requires 0 <= i < |entries| => Call(entries[i], k))
  }

  /** The entries of the calls. */
  function Done(calls: seq<Call>): seq<Entry>
  {
    seq(|calls|, i requires 0 <= i < |calls| => calls[i].entry)
  }

  lemma DueAppend(table: seq<Entry>, e: Entry, k: int)
    ensures Due(table + [e], k) == Due(table, k) + if e.due == k then [e.callback] else []
  {
    assert (table + [e])[..|table|] == table;
  }

  lemma {:induction false} DueLater(table: seq<Entry>, k: int, j: int)
    ensures Due(Later(table, k), j) == if j == k then [] else Due(table, j)
    decreases |table|
  {
    if table != [] {
      var n := |table| - 1;
      DueLater(table[..n], k, j);
      if table[n].due != k {
        DueAppend(Later(table[..n], k), table[n], j);
      } else {
        assert Later(table, k) == Later(table[..n], k);
      }
    }
  }

  lemma {:induction false} DueNone(table: seq<Entry>, k: int)
    requires forall e :: e in table ==> e.due != k
    ensures Due(table, k) == []
    decreases |table|
  {
    if table != [] {
      DueNone(table[..|table| - 1], k);
    }
  }

  lemma {:induction false} LaterElements(table: seq<Entry>, k: int)
    ensures forall e :: e in Later(table, k) <==> e in table && e.due != k
    decreases |table|
  {
    if table != [] {
      LaterElements(table[..|table| - 1], k);
      assert table == table[..|table| - 1] + [table[|table| - 1]];
    }
  }

  /** The table is split into what runs at tick k and what stays. */
  lemma {:induction false} LaterSplits(table: seq<Entry>, k: int)
    ensures multiset(table) == multiset(Later(table, k)) + multiset(DueEntries(table, k))
    decreases |table|
  {
    if table != [] {
      LaterSplits(table[..|table| - 1], k);
      assert table == table[..|table| - 1] + [table[|table| - 1]];
    }
  }

  lemma {:induction false} DueEntriesAreDue(table: seq<Entry>, k: int)
    ensures forall e :: e in DueEntries(table, k) ==> e.due == k
    decreases |table|
  {
    if table != [] {
      DueEntriesAreDue(table[..|table| - 1], k);
    }
  }

  /** i modulo n for an i below 2n. */
  function Wrap(i: int, n: int): int
  {
    if i >= n then i - n else i
  }

  lemma WrapIsRemainder(i: int, n: int)
    requires 0 <= i < 2 * n
    ensures Remainder(i, n) == Wrap(i, n)
  {
    var q, r := Divide(i, n);
    if i < n {
      assert (0 - q) * n == r - i;
      SmallMultiple(0 - q, n);
    } else {
      assert (1 - q) * n == r - (i - n);
      SmallMultiple(1 - q, n);
    }
  }

  lemma RemainderOfSum(c: int, t: int, n: int)
    requires 0 <= c < n && c + t >= 0
    ensures Remainder(c + t, n) == Wrap(c + t % n, n)
  {
    var q, r := t / n, t % n;
    assert t == q * n + r;
    if c + r >= n {
      assert c + t == (q + 1) * n + Wrap(c + r, n);
      DivisionIsUnique(c + t, n, q + 1, Wrap(c + r, n));
    } else {
      DivisionIsUnique(c + t, n, q, Wrap(c + r, n));
    }
  }

  /** The slot arithmetic of a delay. */
  function Modulo(t: int, n: int): int
    requires n >= 1
  {
    t % n
  }

  /** The number of ticks from slot c to slot k. */
  function Distance(c: int, k: int, n: int): int
  {
    if k >= c then k - c else k - c + n
  }

  /** Each slot lists the callbacks due at the tick that empties it next. */
  ghost predicate WheelMatches(wheel: seq<seq<Callback>>, table: seq<Entry>, ticks: int, c: int)
  {
    forall k :: 0 <= k < |wheel| ==> wheel[k] == Due(table, ticks + Distance(c, k, |wheel|))
  }

  /** No entry is overdue or more than one turn ahead. */
  ghost predicate InTurn(table: seq<Entry>, ticks: int, n: int)
  {
    forall e :: e in table ==> ticks <= e.due < ticks + n
  }

  /** The timers added are those that have not run and those that have, each at the tick at which it
      was due. */
  ghost predicate Accounted(added: seq<Entry>, table: seq<Entry>, ran: seq<Call>, slots: int)
    requires slots >= 1
  {
    && multiset(added) == multiset(table) + multiset(Done(ran))
    && (forall e :: e in added ==> e.due == e.at + Modulo(e.t, slots))
    && (forall c :: c in ran ==> c.tick == c.entry.due)
  }

  /** t is the delay in intervals, rounded up. */
  predicate IsRounded(e: Entry, intervalMs: int)
  {
    e.delay >= 0 ==> e.t >= 0 && (e.t - 1) * intervalMs < e.delay <= e.t * intervalMs
  }

  ghost predicate AllRounded(added: seq<Entry>, intervalMs: int)
  {
    forall e :: e in added ==> IsRounded(e, intervalMs)
  }

  /** What a wheel keeps; c is its current slot. */
  ghost predicate Sound(wheel: seq<seq<Callback>>, ticks: int, table: seq<Entry>, added: seq<Entry>, ran: seq<Call>,
                        c: int)
    requires |wheel| >= 1
  {
    WheelMatches(wheel, table, ticks, c) && InTurn(table, ticks, |wheel|) && Accounted(added, table, ran, |wheel|)
  }

  lemma PushMatches(wheel: seq<seq<Callback>>, table: seq<Entry>, ticks: int, c: int, slot: int, e: Entry)
    requires WheelMatches(wheel, table, ticks, c) && InTurn(table, ticks, |wheel|)
    requires 0 <= slot < |wheel| && 0 <= c < |wheel| && e.due == ticks + Distance(c, slot, |wheel|)
    ensures WheelMatches(wheel[slot := wheel[slot] + [e.callback]], table + [e], ticks, c)
    ensures InTurn(table + [e], ticks, |wheel|)
  {
    var wheel' := wheel[slot := wheel[slot] + [e.callback]];
    forall k | 0 <= k < |wheel'|
      ensures wheel'[k] == Due(table + [e], ticks + Distance(c, k, |wheel|))
    {
      DueAppend(table, e, ticks + Distance(c, k, |wheel|));
      assert wheel[k] == Due(table, ticks + Distance(c, k, |wheel|));
    }
  }

  /** Turning the wheel by one slot brings every other slot one tick closer. */
  lemma DistanceNext(c: int, k: int, n: int)
    requires 0 <= c < n && 0 <= k < n
    ensures 1 + Distance(Wrap(c + 1, n), k, n) == if k == c then n else Distance(c, k, n)
  {
  }

  lemma AdvanceMatches(wheel: seq<seq<Callback>>, table: seq<Entry>, ticks: int, c: int)
    requires WheelMatches(wheel, table, ticks, c) && InTurn(table, ticks, |wheel|)
    requires 0 <= c < |wheel|
    ensures WheelMatches(wheel[c := []], Later(table, ticks), ticks + 1, Wrap(c + 1, |wheel|))
    ensures InTurn(Later(table, ticks), ticks + 1, |wheel|)
  {
    var wheel' := wheel[c := []];
    TurnStays(table, ticks, |wheel|);
    forall k | 0 <= k < |wheel'|
      ensures wheel'[k] == Due(Later(table, ticks), ticks + 1 + Distance(Wrap(c + 1, |wheel|), k, |wheel|))
    {
      SlotAfterTurn(wheel, table, ticks, c, k);
    }
  }

  lemma TurnStays(table: seq<Entry>, ticks: int, n: int)
    requires InTurn(table, ticks, n)
    ensures InTurn(Later(table, ticks), ticks + 1, n)
  {
    LaterElements(table, ticks);
  }

  lemma SlotAfterTurn(wheel: seq<seq<Callback>>, table: seq<Entry>, ticks: int, c: int, k: int)
    requires WheelMatches(wheel, table, ticks, c) && InTurn(table, ticks, |wheel|)
    requires 0 <= c < |wheel| && 0 <= k < |wheel|
    ensures wheel[c := []][k] == Due(Later(table, ticks), ticks + 1 + Distance(Wrap(c + 1, |wheel|), k, |wheel|))
  {
    DistanceNext(c, k, |wheel|);
    if k == c {
      CurrentSlotIsEmpty(table, ticks, |wheel|);
    } else {
      OtherSlotStays(wheel, table, ticks, c, k);
    }
  }

  lemma CurrentSlotIsEmpty(table: seq<Entry>, ticks: int, n: int)
    requires InTurn(table, ticks, n)
    ensures Due(Later(table, ticks), ticks + n) == []
  {
    LaterElements(table, ticks);
    DueNone(Later(table, ticks), ticks + n);
  }

  lemma OtherSlotStays(wheel: seq<seq<Callback>>, table: seq<Entry>, ticks: int, c: int, k: int)
    requires WheelMatches(wheel, table, ticks, c) && 0 <= c < |wheel| && 0 <= k < |wheel| && k != c
    ensures wheel[k] == Due(Later(table, ticks), ticks + Distance(c, k, |wheel|))
  {
    DueLater(table, ticks, ticks + Distance(c, k, |wheel|));
  }

  class TimeWheel {
    const slots: int
    const intervalMs: int
    var currentSlot: int
    var wheel: seq<seq<Callback>>

    ghost var ticks: int          // the number of the next tick
    ghost var table: seq<Entry>   // the timers that have not run
    ghost var added: seq<Entry>   // all timers added so far
    ghost var ran: seq<Call>      // all calls so far

    /** The number of the tick that empties slot k next. */
    ghost function TickOf(k: int): int
      reads this
    {
      ticks + Distance(currentSlot, k, slots)
    }

    ghost predicate Valid()
      reads this
    {
      && slots >= 1 && intervalMs >= 1
      && |wheel| == slots && 0 <= currentSlot < slots
      && Sound(wheel, ticks, table, added, ran, currentSlot)
      && AllRounded(added, intervalMs)
    }

    constructor (slots: int, intervalMs: int)
      requires slots >= 1 && intervalMs >= 1
      ensures Valid() && this.slots == slots && this.intervalMs == intervalMs
      ensures table == added == [] && ran == [] && ticks == 0
    {
      this.slots, this.intervalMs, currentSlot := slots, intervalMs, 0;
      wheel := seq(slots, _ => []);
      ticks, table, added, ran := 0, [], [], [];
    }

    /** The callback is due t modulo slots ticks after the next one, t being the delay in intervals,
        rounded up. A negative delay must not lead to a negative slot. */
    method AddTimer(delayMs: int, callback: Callback) returns (ghost e: Entry)
      requires Valid() && currentSlot + Quotient(delayMs + intervalMs - 1, intervalMs) >= 0
      modifies this
      ensures Valid() && ticks == old(ticks) && currentSlot == old(currentSlot) && ran == old(ran)
      ensures table == old(table) + [e] && added == old(added) + [e]
      ensures e.callback == callback && e.at == ticks && e.delay == delayMs && e.due == ticks + e.t % slots
      ensures RoundsTowardZero(delayMs + intervalMs - 1, intervalMs, e.t)
      ensures delayMs >= 0 ==> e.t >= 0 && (e.t - 1) * intervalMs < delayMs <= e.t * intervalMs
    {
      var t := Quotient(delayMs + intervalMs - 1, intervalMs);
      var slot := Remainder(currentSlot + t, slots);
      RemainderOfSum(currentSlot, t, slots);
      QuotientRoundsTowardZero(delayMs + intervalMs - 1, intervalMs);
      if delayMs >= 0 {
        TicksRoundUp(delayMs, intervalMs, t);
      }
      e := Entry(callback, ticks, delayMs, t, ticks + t % slots);
      PushBack(slot, callback, e);
    }

    /** wheel_[slot].push_back(callback) */
    method PushBack(slot: int, callback: Callback, ghost e: Entry)
      requires Valid() && 0 <= slot < slots
      requires e.callback == callback && e.due == TickOf(slot) == e.at + Modulo(e.t, slots) && IsRounded(e, intervalMs)
      modifies this`wheel, this`table, this`added
      ensures Valid() && table == old(table) + [e] && added == old(added) + [e]
    {
      PushKeepsSound(wheel, ticks, table, added, ran, currentSlot, slot, e);
      Place(slot, callback, e);
    }

    method Place(slot: int, callback: Callback, ghost e: Entry)
      requires slots >= 1 && intervalMs >= 1 && |wheel| == slots && 0 <= currentSlot < slots && 0 <= slot < slots
      requires Sound(wheel[slot := wheel[slot] + [callback]], ticks, table + [e], added + [e], ran, currentSlot)
      requires AllRounded(added, intervalMs) && IsRounded(e, intervalMs)
      modifies this`wheel, this`table, this`added
      ensures Valid() && table == old(table) + [e] && added == old(added) + [e]
    {
      wheel := wheel[slot := wheel[slot] + [callback]];
      table, added := table + [e], added + [e];
    }

    /** One pass of the worker loop: exactly the callbacks due at this tick run, in the order in
        which they were added. */
    method Tick() returns (called: seq<Callback>)
      requires Valid()
      modifies this
      ensures Valid() && ticks == old(ticks) + 1 && added == old(added)
      ensures called == Due(old(table), old(ticks))
      ensures ran == old(ran) + AtTick(DueEntries(old(table), old(ticks)), old(ticks))
      ensures table == Later(old(table), old(ticks))
    {
      var list := wheel[currentSlot];
      called := [];
      var i := 0;
      while i < |list|
        invariant i <= |list| && called == list[..i]
      {
        called := called + [list[i]];
        i := i + 1;
      }
      assert called == list == Due(table, TickOf(currentSlot));
      WrapIsRemainder(currentSlot + 1, slots);
      Advance(Remainder(currentSlot + 1, slots));
    }

    /** The assignments of the pass. */
    method Turn(next: int, ghost later: seq<Entry>, ghost calls: seq<Call>)
      requires slots >= 1 && intervalMs >= 1 && |wheel| == slots && 0 <= currentSlot < slots && 0 <= next < slots
      requires Sound(wheel[currentSlot := []], ticks + 1, later, added, calls, next) && AllRounded(added, intervalMs)
      modifies this`wheel, this`currentSlot, this`ran, this`table, this`ticks
      ensures Valid() && ticks == old(ticks) + 1 && ran == calls && table == later
    {
      wheel := wheel[currentSlot := []];
      currentSlot := next;
      ran, table, ticks := calls, later, ticks + 1;
    }

    /** The current slot has run: it is cleared, and the wheel turns. */
    method Advance(next: int)
      requires Valid() && next == Wrap(currentSlot + 1, slots)
      modifies this`wheel, this`currentSlot, this`ran, this`table, this`ticks
      ensures Valid() && ticks == old(ticks) + 1
      ensures ran == old(ran) + AtTick(DueEntries(old(table), old(ticks)), old(ticks))
      ensures table == Later(old(table), old(ticks))
    {
      AdvanceKeepsSound(wheel, ticks, table, added, ran, currentSlot);
      Turn(next, Later(table, ticks), ran + AtTick(DueEntries(table, ticks), ticks));
    }
  }

  lemma PushKeepsSound(wheel: seq<seq<Callback>>, ticks: int, table: seq<Entry>, added: seq<Entry>, ran: seq<Call>,
                       c: int, slot: int, e: Entry)
    requires 0 <= slot < |wheel| && 0 <= c < |wheel| && Sound(wheel, ticks, table, added, ran, c)
    requires e.due == ticks + Distance(c, slot, |wheel|) == e.at + Modulo(e.t, |wheel|)
    ensures Sound(wheel[slot := wheel[slot] + [e.callback]], ticks, table + [e], added + [e], ran, c)
  {
    PushMatches(wheel, table, ticks, c, slot, e);
    AddKeepsAccount(added, table, ran, |wheel|, e);
  }

  lemma AdvanceKeepsSound(wheel: seq<seq<Callback>>, ticks: int, table: seq<Entry>, added: seq<Entry>,
                          ran: seq<Call>, c: int)
    requires 0 <= c < |wheel| && Sound(wheel, ticks, table, added, ran, c)
    ensures Sound(wheel[c := []], ticks + 1, Later(table, ticks), added,
                  ran + AtTick(DueEntries(table, ticks), ticks), Wrap(c + 1, |wheel|))
  {
    AdvanceMatches(wheel, table, ticks, c);
    CallsKeepAccount(added, table, ran, |wheel|, ticks);
  }

  lemma CallsKeepAccount(added: seq<Entry>, table: seq<Entry>, ran: seq<Call>, slots: int, k: int)
    requires slots >= 1 && Accounted(added, table, ran, slots)
    ensures Accounted(added, Later(table, k), ran + AtTick(DueEntries(table, k), k), slots)
  {
    CallsBalance(added, table, ran, k);
    CallsAreDue(table, k);
  }

  lemma AddKeepsAccount(added: seq<Entry>, table: seq<Entry>, ran: seq<Call>, slots: int, e: Entry)
    requires slots >= 1 && Accounted(added, table, ran, slots) && e.due == e.at + Modulo(e.t, slots)
    ensures Accounted(added + [e], table + [e], ran, slots)
  {
    BalanceWith(added, table, Done(ran), e);
  }

  /** The calls of a tick move its entries from the table to what has run. */
  lemma CallsBalance(added: seq<Entry>, table: seq<Entry>, ran: seq<Call>, k: int)
    requires multiset(added) == multiset(table) + multiset(Done(ran))
    ensures multiset(added) == multiset(Later(table, k)) + multiset(Done(ran + AtTick(DueEntries(table, k), k)))
  {
    LaterSplits(table, k);
    DoneConcat(ran, DueEntries(table, k), k);
    Balance(multiset(added), multiset(table), multiset(Done(ran)), multiset(Later(table, k)),
            multiset(DueEntries(table, k)));
  }

  lemma DoneConcat(ran: seq<Call>, entries: seq<Entry>, k: int)
    ensures Done(ran + AtTick(entries, k)) == Done(ran) + entries
  {
  }

  lemma Balance(added: multiset<Entry>, table: multiset<Entry>, ran: multiset<Entry>,
                later: multiset<Entry>, now: multiset<Entry>)
    requires added == table + ran && table == later + now
    ensures added == later + (ran + now)
  {
  }

  lemma CallsAreDue(table: seq<Entry>, k: int)
    ensures forall c :: c in AtTick(DueEntries(table, k), k) ==> c.tick == c.entry.due
  {
    DueEntriesAreDue(table, k);
    forall c | c in AtTick(DueEntries(table, k), k)
      ensures c.tick == c.entry.due
    {
      assert c.entry in DueEntries(table, k);
    }
  }

  lemma BalanceWith(added: seq<Entry>, table: seq<Entry>, ran: seq<Entry>, e: Entry)
    requires multiset(added) == multiset(table) + multiset(ran)
    ensures multiset(added + [e]) == multiset(table + [e]) + multiset(ran)
  {
  }

  // ---------- What the table promises ----------

  /** Every call happens at the tick at which its timer is due, and every timer runs exactly once:
      until its tick has passed it is in the table, and afterwards it has run. */
  lemma RunsExactlyOnceWhenDue(w: TimeWheel, e: Entry)
    requires w.Valid()
    ensures multiset(Done(w.ran))[e] <= multiset(w.added)[e]
    ensures e.due < w.ticks ==> multiset(Done(w.ran))[e] == multiset(w.added)[e]
    ensures multiset(w.table)[e] == multiset(w.added)[e] - multiset(Done(w.ran))[e]
  {
    assert multiset(w.added)[e] == multiset(w.table)[e] + multiset(Done(w.ran))[e];
    if e.due < w.ticks {
      assert e !in w.table;
    }
  }

  lemma TicksRoundUp(delayMs: int, intervalMs: int, t: int)
    requires delayMs >= 0 && intervalMs >= 1 && t == Quotient(delayMs + intervalMs - 1, intervalMs)
    ensures t >= 0 && (t - 1) * intervalMs < delayMs <= t * intervalMs
  {
    var q, r := Divide(delayMs + intervalMs - 1, intervalMs);
    assert (q - 1) * intervalMs == q * intervalMs - intervalMs;
  }

  /** t % slots equals t exactly below one turn. */
  lemma ModuloIsExact(t: int, slots: int)
    requires slots >= 1 && t >= 0
    ensures Modulo(t, slots) == t <==> t < slots
    ensures t - Modulo(t, slots) == (t / slots) * slots
  {
    var q, r := Divide(t, slots);
    if t < slots {
      assert (0 - q) * slots == r - t;
      SmallMultiple(0 - q, slots);
    }
  }

  /** A delay is less than one turn if it is at most that of the last slot. */
  lemma LessThanOneTurn(delay: int, t: int, intervalMs: int, slots: int)
    requires intervalMs >= 1 && (t - 1) * intervalMs < delay <= t * intervalMs
    ensures t < slots <==> delay <= (slots - 1) * intervalMs
  {
    if t < slots {
      MultiplyBoth(t, slots - 1, intervalMs);
    } else {
      MultiplyBoth(slots - 1, t - 1, intervalMs);
    }
  }

  lemma MultiplyBoth(a: int, b: int, m: int)
    requires a <= b && m >= 0
    ensures a * m <= b * m
  {
    assert (b - a) * m >= 0;
    assert (b - a) * m == b * m - a * m;
  }

  lemma CallWasAdded(w: TimeWheel, c: Call)
    requires w.Valid() && c in w.ran
    ensures c.entry in w.added
  {
    var i :| 0 <= i < |w.ran| && w.ran[i] == c;
    assert Done(w.ran)[i] == c.entry;
    assert c.entry in multiset(w.table) + multiset(Done(w.ran));
  }

  /** A wheel calls a timer t intervals after the tick at which it was added if and only if its delay
      is less than one turn; otherwise it calls it whole turns too early. A call in time is no
      earlier than the delay, and less than one interval later. */
  lemma CallIsInTime(w: TimeWheel, c: Call)
    requires w.Valid() && c in w.ran && c.entry.delay >= 0
    ensures var e := c.entry;
      && (c.tick == e.at + e.t <==> e.delay <= (w.slots - 1) * w.intervalMs)
      && e.at + e.t - c.tick == (e.t / w.slots) * w.slots
      && (c.tick == e.at + e.t ==>
            (c.tick - e.at - 1) * w.intervalMs < e.delay <= (c.tick - e.at) * w.intervalMs)
  {
    CallWasAdded(w, c);
    assert IsRounded(c.entry, w.intervalMs);
    ModuloIsExact(c.entry.t, w.slots);
    LessThanOneTurn(c.entry.delay, c.entry.t, w.intervalMs, w.slots);
  }

  /** A wheel whose timers all have delays of less than one turn is an exact deadline table: every
      call happens in the first tick that is no earlier than its delay, and every timer whose tick
      has passed has been called as often as it was added. */
  lemma WheelIsExact(w: TimeWheel)
    requires w.Valid() && forall e :: e in w.added ==> 0 <= e.delay <= (w.slots - 1) * w.intervalMs
    ensures forall c :: c in w.ran ==>
              (c.tick - c.entry.at - 1) * w.intervalMs < c.entry.delay <= (c.tick - c.entry.at) * w.intervalMs
    ensures forall e :: e in w.added && e.at + e.t < w.ticks ==>
              multiset(Done(w.ran))[e] == multiset(w.added)[e]
  {
    forall c | c in w.ran
      ensures (c.tick - c.entry.at - 1) * w.intervalMs < c.entry.delay <= (c.tick - c.entry.at) * w.intervalMs
    {
      CallWasAdded(w, c);
      CallIsInTime(w, c);
    }
    forall e | e in w.added && e.at + e.t < w.ticks
      ensures multiset(Done(w.ran))[e] == multiset(w.added)[e]
    {
      assert IsRounded(e, w.intervalMs);
      LessThanOneTurn(e.delay, e.t, w.intervalMs, w.slots);
      ModuloIsExact(e.t, w.slots);
      RunsExactlyOnceWhenDue(w, e);
    }
  }

  /** The called are the callbacks of the entries due at tick k, in the order in which they were
      added. */
  ghost predicate InOrder(table: seq<Entry>, k: int, called: seq<Callback>, positions: seq<nat>)
  {
    && |positions| == |called|
    && (forall i, j :: 0 <= i < j < |positions| ==> positions[i] < positions[j])
    && (forall i :: 0 <= i < |positions| ==>
          positions[i] < |table| && table[positions[i]].due == k && called[i] == table[positions[i]].callback)
    && (forall n :: 0 <= n < |table| && table[n].due == k ==> n in positions)
  }

  lemma OneMoreInOrder(table: seq<Entry>, e: Entry, k: int, called: seq<Callback>, positions: seq<nat>)
    requires InOrder(table, k, called, positions)
    ensures if e.due == k then InOrder(table + [e], k, called + [e.callback], positions + [|table|])
            else InOrder(table + [e], k, called, positions)
  {
    var more := positions + [|table|];
    assert forall n :: n in positions ==> n in more;
    assert more[|positions|] == |table|;
  }

  /** A tick calls exactly the callbacks that are due, in the order in which they were added. */
  lemma {:induction false} DueInOrder(table: seq<Entry>, k: int) returns (positions: seq<nat>)
    ensures InOrder(table, k, Due(table, k), positions)
    decreases |table|
  {
    positions := [];
    if table != [] {
      var n := |table| - 1;
      positions := DueInOrder(table[..n], k);
      OneMoreInOrder(table[..n], table[n], k, Due(table[..n], k), positions);
      assert table == table[..n] + [table[n]];
      if table[n].due == k {
        positions := positions + [n];
      }
    }
  }
}
