/** What every interleaving of the server's callbacks and reply iterations satisfies. */
module ServerRuns {
  import opened Options
  import Histories
  import opened Callbacks
  import opened Calculator
  import opened MatchTables
  import opened ServerApp

  lemma Split(s: State, es: seq<Event>, k: nat)
    requires Lawful(s, es) && k <= |es|
    ensures Lawful(s, es[..k]) && Lawful(After(s, es[..k]), es[k..])
    ensures After(After(s, es[..k]), es[k..]) == After(s, es)
    ensures k < |es| ==> Allowed(After(s, es[..k]), es[k])
  {
    Histories.Split(SERVER, s, es, k);
  }

  // ---------- Conservation ----------

  function PushedBy(e: Event): seq<Entry>
  {
    if e.Queued? then [e.entry] else []
  }

  function AnsweredBy(e: Event): seq<Entry>
  {
    if e.Answered? then [e.entry] else []
  }

  function DroppedBy(e: Event): seq<Entry>
  {
    if e.Dropped? then [e.entry] else []
  }

  /** The entries that f finds in the events, in order. */
  function All(es: seq<Event>, f: Event -> seq<Entry>): seq<Entry>
    decreases |es|
  {
    if es == [] then [] else f(es[0]) + All(es[1..], f)
  }

  function Pushed(es: seq<Event>): seq<Entry> { All(es, PushedBy) }
  function Answers(es: seq<Event>): seq<Entry> { All(es, AnsweredBy) }
  function Drops(es: seq<Event>): seq<Entry> { All(es, DroppedBy) }

  lemma StepConserves(s: State, e: Event)
    requires Allowed(s, e)
    ensures multiset(s.requests) + multiset(PushedBy(e)) ==
            multiset(Apply(s, e).requests) + multiset(AnsweredBy(e)) + multiset(DroppedBy(e))
  {
    if IsIteration(e) {
      IterationConserves(s, e);
    } else {
      assert Apply(s, e).requests == s.requests + PushedBy(e);
    }
  }

  lemma IterationConserves(s: State, e: Event)
    requires Allowed(s, e) && IsIteration(e)
    ensures multiset(s.requests) == multiset(Apply(s, e).requests) + multiset(AnsweredBy(e) + DroppedBy(e))
    ensures AnsweredBy(e) == [] || DroppedBy(e) == []
  {
    assert s.requests == [e.entry] + s.requests[1..];
  }

  /** Adds the balance of one step to the balance of the steps after it. */
  lemma Join(q0: multiset<Entry>, p0: multiset<Entry>, p1: multiset<Entry>, q1: multiset<Entry>,
             a0: multiset<Entry>, d0: multiset<Entry>, q2: multiset<Entry>, a1: multiset<Entry>, d1: multiset<Entry>)
    requires q0 + p0 == q1 + a0 + d0
    requires q1 + p1 == q2 + a1 + d1
    ensures q0 + (p0 + p1) == q2 + (a0 + a1) + (d0 + d1)
  {
    assert q0 + (p0 + p1) == (q0 + p0) + p1;
    assert (q1 + a0 + d0) + p1 == (q1 + p1) + a0 + d0;
  }

  /** In every interleaving the requests queued before and those pushed are, counted with
      multiplicity, the requests still queued, those answered and those dropped. */
  lemma {:induction false} RequestsAreConserved(s: State, es: seq<Event>)
    requires Lawful(s, es)
    ensures multiset(s.requests) + multiset(Pushed(es)) ==
            multiset(After(s, es).requests) + multiset(Answers(es)) + multiset(Drops(es))
    decreases |es|
  {
    if es != [] {
      var e, t := es[0], Apply(s, es[0]);
      StepConserves(s, e);
      RequestsAreConserved(t, es[1..]);
      assert Pushed(es) == PushedBy(e) + Pushed(es[1..]);
      assert Answers(es) == AnsweredBy(e) + Answers(es[1..]);
      assert Drops(es) == DroppedBy(e) + Drops(es[1..]);
      Join(multiset(s.requests), multiset(PushedBy(e)), multiset(Pushed(es[1..])), multiset(t.requests),
           multiset(AnsweredBy(e)), multiset(DroppedBy(e)), multiset(After(s, es).requests),
           multiset(Answers(es[1..])), multiset(Drops(es[1..])));
    }
  }

  predicate Distinct(q: seq<Entry>)
  {
    forall i, j :: 0 <= i < j < |q| ==> q[i] != q[j]
  }

  lemma {:induction false} DistinctCounts(q: seq<Entry>, x: Entry)
    requires Distinct(q)
    ensures multiset(q)[x] == if x in q then 1 else 0
  {
    if q != [] {
      DistinctCounts(q[1..], x);
      assert q == [q[0]] + q[1..];
    }
  }

  /** DDS gives every request its own identity. Then every pushed request is in exactly one
      place, once: still queued, answered by one successful write, or dropped. */
  lemma ExactlyOnePlace(es: seq<Event>, entry: Entry)
    requires Lawful(INITIAL, es) && Distinct(Pushed(es)) && entry in Pushed(es)
    ensures var queued, answered, dropped :=
              multiset(After(INITIAL, es).requests)[entry], multiset(Answers(es))[entry], multiset(Drops(es))[entry];
            (queued, answered, dropped) in {(1, 0, 0), (0, 1, 0), (0, 0, 1)}
  {
    RequestsAreConserved(INITIAL, es);
    DistinctCounts(Pushed(es), entry);
    assert (multiset(INITIAL.requests) + multiset(Pushed(es)))[entry] == 1;
  }

  /** Nothing is answered, dropped or queued that was not pushed. */
  lemma OnlyPushedRequests(es: seq<Event>, entry: Entry)
    requires Lawful(INITIAL, es)
    requires entry in Answers(es) || entry in Drops(es) || entry in After(INITIAL, es).requests
    ensures entry in Pushed(es)
  {
    RequestsAreConserved(INITIAL, es);
    assert entry in multiset(After(INITIAL, es).requests) + multiset(Answers(es)) + multiset(Drops(es));
    assert entry in multiset(INITIAL.requests) + multiset(Pushed(es));
  }

  // ---------- After stop ----------

  function IsPushOf(cell: nat): Event -> bool
  {
    (e: Event) => e.Queued? && e.entry.cell == cell
  }

  function IsTakeOf(cell: nat): Event -> bool
  {
    (e: Event) => e.Took? && e.cell == cell
  }

  /** stop takes no lock, so it does not wait for what has passed its test already. After it at most
      the one iteration takes effect that the reply thread is in, and each call of
      on_data_available takes at most the sample it is about to take, and pushes at most one. */
  lemma {:induction false} EffectsAfterStop(s: State, es: seq<Event>, cell: nat)
    requires Lawful(s, es) && s.stopped
    ensures Iterations(es) <= if s.replying then 1 else 0
    ensures Histories.Count(es, IsTakeOf(cell)) <= if s.Stands(cell, AtTake) then 1 else 0
    ensures Histories.Count(es, IsPushOf(cell)) <= if InFlight(s, cell) then 1 else 0
    decreases |es|
  {
    if es != [] {
      EffectsAfterStop(Apply(s, es[0]), es[1..], cell);
      OneEffect(s, es[0], cell);
    }
  }

  lemma OneEffect(s: State, e: Event, cell: nat)
    requires Allowed(s, e) && s.stopped
    ensures var t := Apply(s, e);
      && t.stopped
      && (t.replying ==> s.replying && !IsIteration(e)) && (IsIteration(e) ==> s.replying)
      && (t.Stands(cell, AtTake) ==> s.Stands(cell, AtTake) && !IsTakeOf(cell)(e))
      && (IsTakeOf(cell)(e) ==> s.Stands(cell, AtTake))
      && (InFlight(t, cell) ==> InFlight(s, cell) && !IsPushOf(cell)(e))
      && (IsPushOf(cell)(e) ==> InFlight(s, cell))
  {
  }

  /** The call is past its test. */
  predicate InFlight(s: State, cell: nat)
  {
    cell < |s.calls| && s.calls[cell].InFlight()
  }

  /** Some thread is past its test of the stop flag. */
  predicate Pending(s: State)
  {
    s.replying || exists cell :: 0 <= cell < |s.calls| && InFlight(s, cell)
  }

  predicate IsEffect(e: Event)
  {
    IsIteration(e) || e.Queued?
  }

  /** Nothing is ever pushed or processed any more after a stop if and only if no thread was past
      its test when the server was stopped. */
  lemma StopIsFinalExactly(past: seq<Event>)
    requires Lawful(INITIAL, past) && After(INITIAL, past).stopped
    ensures var s := After(INITIAL, past);
            (forall es :: Lawful(s, es) ==> Histories.Count(es, IsEffect) == 0) <==> !Pending(s)
  {
    var s := After(INITIAL, past);
    if Pending(s) {
      var es := OneMoreEffect(past);
    } else {
      forall es | Lawful(s, es)
        ensures Histories.Count(es, IsEffect) == 0
      {
        QuietAfterStop(s, es);
      }
    }
  }

  lemma {:induction false} QuietAfterStop(s: State, es: seq<Event>)
    requires Lawful(s, es) && s.stopped && !Pending(s)
    ensures Histories.Count(es, IsEffect) == 0
    ensures After(s, es).requests == s.requests && After(s, es).kept <= s.kept
    decreases |es|
  {
    if es != [] {
      var e, t := es[0], Apply(s, es[0]);
      assert e.Queued? ==> InFlight(s, e.entry.cell);
      forall cell | 0 <= cell < |t.calls|
        ensures !InFlight(t, cell)
      {
        OneEffect(s, e, cell);
      }
      QuietAfterStop(t, es[1..]);
    }
  }

  lemma OneMoreEffect(past: seq<Event>) returns (es: seq<Event>)
    requires Lawful(INITIAL, past) && Pending(After(INITIAL, past))
    ensures Lawful(After(INITIAL, past), es) && Histories.Count(es, IsEffect) > 0
  {
    var s := After(INITIAL, past);
    if s.replying {
      ReplyingHasRequest(past);
      var e := SomeIteration(s);
      Histories.One(SERVER, s, e);
      es := [e];
    } else {
      var cell :| 0 <= cell < |s.calls| && InFlight(s, cell);
      if s.calls[cell].Holding? {
        var e := Queued(Entry(s.calls[cell].item, cell));
        Histories.One(SERVER, s, e);
        es := [e];
      } else {
        var info := Info(0, SampleId(0, 0));
        var take, push := Took(cell, EMPTY_REQUEST, Some(info)), Queued(Entry(info, cell));
        Histories.One(SERVER, s, take);
        Histories.Extend(SERVER, s, [take], push);
        es := [take] + [push];
        assert es[1..] == [push] && es[0] == take;
      }
    }
  }

  /** An iteration that has begun can always be completed. */
  lemma SomeIteration(s: State) returns (e: Event)
    requires s.replying && s.requests != []
    ensures IsIteration(e) && Allowed(s, e)
    ensures e.Requeued? ==> !s.Matched(s.requests[0].info.client)
  {
    var entry := s.requests[0];
    if s.Gone(entry.info.client) {
      e := Dropped(entry);
    } else if !s.Matched(entry.info.client) {
      e := Requeued(entry, false);
    } else if ReplyNow(s, entry).None? {
      e := Dropped(entry);
    } else {
      e := Answered(entry, ReplyNow(s, entry).value);
    }
  }

  lemma {:induction false} ReplyingHasRequest(es: seq<Event>)
    requires Lawful(INITIAL, es)
    ensures After(INITIAL, es).replying ==> After(INITIAL, es).requests != []
    decreases |es|
  {
    if es != [] {
      var n := |es| - 1;
      Histories.At(SERVER, INITIAL, es, n);
      assert es[..n + 1] == es;
      ReplyingHasRequest(es[..n]);
    }
  }

  /** A request of the call is queued or about to be. */
  predicate HasRequest(s: State, cell: nat)
  {
    || (cell < |s.calls| && s.calls[cell].Holding?)
    || exists k :: 0 <= k < |s.requests| && s.requests[k].cell == cell
  }

  /** What is queued or about to be was taken by its call. */
  lemma {:induction false} QueuedWasTaken(es: seq<Event>, cell: nat)
    requires Lawful(INITIAL, es)
    requires HasRequest(After(INITIAL, es), cell)
    ensures Histories.Count(es, IsTakeOf(cell)) >= 1
    decreases |es|
  {
    var n := |es| - 1;
    Histories.At(SERVER, INITIAL, es, n);
    assert es[..n + 1] == es && es == es[..n] + [es[n]];
    Histories.CountExtend(es[..n], es[n], IsTakeOf(cell));
    var s := After(INITIAL, es[..n]);
    if !IsTakeOf(cell)(es[n]) {
      HeldBefore(s, es[n], cell);
      QueuedWasTaken(es[..n], cell);
    }
  }

  lemma HeldBefore(s: State, e: Event, cell: nat)
    requires Allowed(s, e) && !IsTakeOf(cell)(e)
    requires HasRequest(Apply(s, e), cell)
    ensures HasRequest(s, cell)
  {
    var t := Apply(s, e);
    if k :| 0 <= k < |t.requests| && t.requests[k].cell == cell {
      var j := if IsIteration(e) then (if k == |s.requests| - 1 then 0 else k + 1) else k;
      assert j < |s.requests| ==> s.requests[j].cell == cell;
    }
  }

  // ---------- The history of the reply writer ----------

  function RepliesOf(es: seq<Event>): seq<Reply>
    decreases |es|
  {
    if es == [] then [] else WrittenBy(es[0]) + RepliesOf(es[1..])
  }

  function WrittenBy(e: Event): seq<Reply>
  {
    if e.Answered? then [e.reply] else []
  }

  lemma {:induction false} RepliesOfLast(es: seq<Event>, e: Event)
    ensures RepliesOf(es + [e]) == RepliesOf(es) + WrittenBy(e)
    decreases |es|
  {
    if es == [] {
      assert es + [e] == [e] && [e][1..] == [];
    } else {
      assert (es + [e])[1..] == es[1..] + [e];
      RepliesOfLast(es[1..], e);
    }
  }

  predicate IsUnmatch(e: Event)
  {
    (e.WriterChanged? && !e.status) || (e.ReaderChanged? && !e.status)
  }

  /** Event k is an unmatch after which no client has a matched endpoint. */
  predicate LeavesNobody(s: State, es: seq<Event>, k: nat)
    requires k < |es|
  {
    IsUnmatch(es[k]) && After(s, es[..k + 1]).writers == {} && After(s, es[..k + 1]).readers == {}
  }

  lemma KeptStep(s: State, e: Event)
    ensures var t := Apply(s, e);
            t.kept == if IsUnmatch(e) && t.writers == {} && t.readers == {} then [] else s.kept + WrittenBy(e)
  {
  }

  lemma SameInPrefix(s: State, es: seq<Event>, n: nat)
    requires n <= |es|
    ensures forall k :: 0 <= k < n ==> LeavesNobody(s, es[..n], k) == LeavesNobody(s, es, k)
  {
    forall k | 0 <= k < n
      ensures LeavesNobody(s, es[..n], k) == LeavesNobody(s, es, k)
    {
      assert es[..n][..k + 1] == es[..k + 1];
    }
  }

  /** What is kept was written from event i on, and no later event left nobody matched. */
  ghost predicate KeptFrom(s: State, es: seq<Event>, i: nat)
  {
    && i <= |es| && (i > 0 ==> LeavesNobody(s, es, i - 1))
    && (forall k :: i <= k < |es| ==> !LeavesNobody(s, es, k))
    && After(s, es).kept == (if i == 0 then s.kept else []) + RepliesOf(es[i..])
  }

  lemma KeptFromOnward(s: State, es: seq<Event>, n: nat, i: nat)
    requires Lawful(s, es) && |es| == n + 1 && KeptFrom(s, es[..n], i) && !LeavesNobody(s, es, n)
    ensures KeptFrom(s, es, i)
  {
    SameInPrefix(s, es, n);
    KeptOnward(s, es, n);
    RepliesOnward(es, n, i);
    assert forall k :: i <= k < n ==> !LeavesNobody(s, es, k);
  }

  lemma KeptOnward(s: State, es: seq<Event>, n: nat)
    requires Lawful(s, es) && |es| == n + 1 && !LeavesNobody(s, es, n)
    ensures After(s, es).kept == After(s, es[..n]).kept + WrittenBy(es[n])
  {
    Histories.At(SERVER, s, es, n);
    assert es[..n + 1] == es;
    KeptStep(After(s, es[..n]), es[n]);
  }

  lemma RepliesOnward(es: seq<Event>, n: nat, i: nat)
    requires |es| == n + 1 && i <= n
    ensures RepliesOf(es[i..]) == RepliesOf(es[..n][i..]) + WrittenBy(es[n])
  {
    assert es[i..] == es[..n][i..] + [es[n]];
    RepliesOfLast(es[..n][i..], es[n]);
  }

  lemma NothingKept(s: State, es: seq<Event>)
    requires Lawful(s, es) && es != [] && LeavesNobody(s, es, |es| - 1)
    ensures After(s, es).kept == []
  {
    var n := |es| - 1;
    Histories.At(SERVER, s, es, n);
    assert es[..n + 1] == es;
    KeptStep(After(s, es[..n]), es[n]);
  }

  /** What the reply writer keeps for late readers is exactly what it has written since the last
      unmatch that left no endpoint matched. */
  lemma {:induction false} KeptIsLatest(s: State, es: seq<Event>) returns (i: nat)
    requires Lawful(s, es)
    ensures KeptFrom(s, es, i)
    decreases |es|
  {
    if es == [] {
      i := 0;
    } else {
      var n := |es| - 1;
      if LeavesNobody(s, es, n) {
        NothingKept(s, es);
        i := |es|;
      } else {
        Histories.At(SERVER, s, es, n);
        i := KeptIsLatest(s, es[..n]);
        KeptFromOnward(s, es, n, i);
      }
    }
  }

  /** The event up happened, and none that undoes it since. */
  ghost predicate Stands(es: seq<Event>, up: Event, undoes: Event -> bool)
  {
    exists i :: 0 <= i < |es| && es[i] == up && forall k :: i < k < |es| ==> !undoes(es[k])
  }

  lemma StandsAfter(es: seq<Event>, e: Event, up: Event, undoes: Event -> bool)
    requires !undoes(up)
    ensures Stands(es + [e], up, undoes) <==> e == up || (Stands(es, up, undoes) && !undoes(e))
  {
    var fs := es + [e];
    if Stands(es, up, undoes) && !undoes(e) {
      var i :| 0 <= i < |es| && es[i] == up && forall k :: i < k < |es| ==> !undoes(es[k]);
      assert fs[i] == up && forall k :: i < k < |fs| ==> !undoes(fs[k]);
    }
    if e == up {
      assert fs[|es|] == up;
    }
    if Stands(fs, up, undoes) && e != up {
      var i :| 0 <= i < |fs| && fs[i] == up && forall k :: i < k < |fs| ==> !undoes(fs[k]);
      assert es[i] == up && !undoes(fs[|es|]);
      assert forall k :: i < k < |es| ==> es[k] == fs[k];
    }
  }

  /** The events that make an endpoint of a client unmatched. */
  function LosesWriter(g: Guid): Event -> bool { (e: Event) => e == WriterChanged(g, false) || e == ClientLost(g) }
  function LosesReader(g: Guid): Event -> bool { (e: Event) => e == ReaderChanged(g, false) || e == ClientLost(g) }

  lemma MatchedStep(s: State, e: Event, g: Guid)
    ensures g in Apply(s, e).writers <==> e == WriterChanged(g, true) || (g in s.writers && !LosesWriter(g)(e))
    ensures g in Apply(s, e).readers <==> e == ReaderChanged(g, true) || (g in s.readers && !LosesReader(g)(e))
  {
  }

  /** An endpoint is matched if and only if it was matched and neither it nor its client was lost
      since. */
  lemma {:induction false} MatchedExactly(es: seq<Event>, g: Guid)
    requires Lawful(INITIAL, es)
    ensures g in After(INITIAL, es).writers <==> Stands(es, WriterChanged(g, true), LosesWriter(g))
    ensures g in After(INITIAL, es).readers <==> Stands(es, ReaderChanged(g, true), LosesReader(g))
    decreases |es|
  {
    if es != [] {
      var n := |es| - 1;
      Histories.At(SERVER, INITIAL, es, n);
      assert es[..n + 1] == es == es[..n] + [es[n]];
      MatchedExactly(es[..n], g);
      MatchedStep(After(INITIAL, es[..n]), es[n], g);
      StandsAfter(es[..n], es[n], WriterChanged(g, true), LosesWriter(g));
      StandsAfter(es[..n], es[n], ReaderChanged(g, true), LosesReader(g));
    }
  }

  // ---------- Rotation ----------

  function Iterations(es: seq<Event>): nat
  {
    Histories.Count(es, IsIteration)
  }

  /** Whatever arrives or is queued again, k iterations bring the request at index k to the front. */
  lemma {:induction false} Rotation(s: State, es: seq<Event>, k: nat)
    requires Lawful(s, es) && k < |s.requests| && Iterations(es) <= k
    ensures var later := After(s, es).requests;
            k - Iterations(es) < |later| && later[k - Iterations(es)] == s.requests[k]
    decreases |es|
  {
    if es != [] {
      var e, t := es[0], Apply(s, es[0]);
      var j := if IsIteration(e) then k - 1 else k;
      assert j < |t.requests| && t.requests[j] == s.requests[k];
      Rotation(t, es[1..], j);
    }
  }

  /** The request at index k is the one processed by iteration k + 1. It is answered then if its
      client is matched, its calculation succeeds and the write does not fail. */
  lemma ProcessedInTurn(s: State, es: seq<Event>, k: nat, i: nat)
    requires Lawful(s, es) && k < |s.requests|
    requires i < |es| && IsIteration(es[i]) && Iterations(es[..i]) == k
    ensures es[i].entry == s.requests[k]
    ensures var now := After(s, es[..i]);
            now.Matched(s.requests[k].info.client) && ReplyNow(now, s.requests[k]).Some? ==>
              es[i] == Answered(s.requests[k], ReplyNow(now, s.requests[k]).value) ||
              es[i] == Requeued(s.requests[k], true)
  {
    Split(s, es, i);
    var now := After(s, es[..i]);
    assert Allowed(now, es[i]);
    assert now.requests[0] == s.requests[k] by {
      Rotation(s, es[..i], k);
    }
  }

  // ---------- What a reply contains ----------

  /** The payload read last into a request object. */
  function LastTaken(es: seq<Event>, cell: nat): Option<Payload>
  {
    if es == [] then None
    else
      var e := es[|es| - 1];
      if e.Took? && e.cell == cell then Some(e.payload) else LastTaken(es[..|es| - 1], cell)
  }

  lemma {:induction false} CellHoldsLastTaken(es: seq<Event>, cell: nat)
    requires Lawful(INITIAL, es)
    ensures |After(INITIAL, es).calls| == |After(INITIAL, es).cells|
    ensures LastTaken(es, cell).Some? ==>
              cell < |After(INITIAL, es).cells| && After(INITIAL, es).cells[cell] == LastTaken(es, cell).value
    decreases |es|
  {
    if es != [] {
      var n := |es| - 1;
      Histories.At(SERVER, INITIAL, es, n);
      assert es[..n + 1] == es;
      CellHoldsLastTaken(es[..n], cell);
    }
  }

  lemma {:induction false} LastTakenSince(es: seq<Event>, cell: nat, i: nat)
    requires i < |es| && es[i].Took? && es[i].cell == cell
    requires forall k :: i < k < |es| ==> !(es[k].Took? && es[k].cell == cell)
    ensures LastTaken(es, cell) == Some(es[i].payload)
    decreases |es|
  {
    if i < |es| - 1 {
      LastTakenSince(es[..|es| - 1], cell, i);
    }
  }

  /** The reply to the request itself. */
  function OwnReply(payload: Payload, info: Info): Option<Reply>
  {
    if Exact(payload).Some? then Some(Reply(payload.clientId, info.id, Exact(payload).value)) else None
  }

  /** A reply is computed from the sample that its on_data_available call took last, because all
      samples of a call share one request object. */
  lemma ReplyUsesLastSampleOfCall(es: seq<Event>, i: nat, j: nat)
    requires Lawful(INITIAL, es) && i < j < |es|
    requires es[i].Took? && es[i].info.Some?
    requires es[j].Answered? && es[j].entry == Entry(es[i].info.value, es[i].cell)
    ensures LastTaken(es[..j], es[i].cell).Some?
    ensures Some(es[j].reply) == OwnReply(LastTaken(es[..j], es[i].cell).value, es[i].info.value)
  {
    Split(INITIAL, es, j);
    CellHoldsLastTaken(es[..j], es[i].cell);
    SomethingTaken(es[..j], es[i].cell, i);
  }

  lemma {:induction false} SomethingTaken(es: seq<Event>, cell: nat, i: nat)
    requires i < |es| && es[i].Took? && es[i].cell == cell
    ensures LastTaken(es, cell).Some?
    decreases |es|
  {
    if i < |es| - 1 {
      SomethingTaken(es[..|es| - 1], cell, i);
    }
  }

  /** If the call takes no further sample before the request is processed, its reply is the exact
      value of the request, with its client and its identity. */
  lemma ReplyIsExact(es: seq<Event>, i: nat, j: nat)
    requires Lawful(INITIAL, es) && i < j < |es|
    requires es[i].Took? && es[i].info.Some?
    requires es[j].Answered? && es[j].entry == Entry(es[i].info.value, es[i].cell)
    requires forall k :: i < k < j ==> !(es[k].Took? && es[k].cell == es[i].cell)
    ensures Some(es[j].reply) == OwnReply(es[i].payload, es[i].info.value)
  {
    ReplyUsesLastSampleOfCall(es, i, j);
    LastTakenSince(es[..j], es[i].cell, i);
  }

  /** The reply is exact if and only if the sample read last into the object of the call has the
      same client and the same value. */
  lemma ReplyIsExactExactly(es: seq<Event>, i: nat, j: nat)
    requires Lawful(INITIAL, es) && i < j < |es|
    requires es[i].Took? && es[i].info.Some?
    requires es[j].Answered? && es[j].entry == Entry(es[i].info.value, es[i].cell)
    ensures LastTaken(es[..j], es[i].cell).Some?
    ensures var own, last := es[i].payload, LastTaken(es[..j], es[i].cell).value;
            Some(es[j].reply) == OwnReply(own, es[i].info.value) <==>
              last.clientId == own.clientId && Exact(last) == Exact(own)
  {
    ReplyUsesLastSampleOfCall(es, i, j);
  }

  /** A request that is processed while its client is matched is lost as malformed if and only if
      the sample read last into the object of its call is malformed, whatever the request was. */
  lemma LostExactlyWithLastSample(es: seq<Event>, i: nat, j: nat)
    requires Lawful(INITIAL, es) && i < j < |es|
    requires es[i].Took? && es[i].info.Some?
    requires IsIteration(es[j]) && es[j].entry == Entry(es[i].info.value, es[i].cell)
    requires After(INITIAL, es[..j]).Matched(es[i].info.value.client)
    ensures LastTaken(es[..j], es[i].cell).Some?
    ensures es[j].Dropped? <==> Exact(LastTaken(es[..j], es[i].cell).value) == None
  {
    Split(INITIAL, es, j);
    CellHoldsLastTaken(es[..j], es[i].cell);
    SomethingTaken(es[..j], es[i].cell, i);
  }

  // two requests of the client 7
  const FIRST := Info(7, SampleId(7, 1))
  const SECOND := Info(7, SampleId(7, 2))

  /** A call takes two samples before the reply thread processes the first one. */
  lemma TwoSamplesTaken(first: Payload, second: Payload) returns (es: seq<Event>)
    ensures |es| == 10 && es[2] == Took(0, first, Some(FIRST))
    ensures var s := State([Entry(FIRST, 0), Entry(SECOND, 0)], [AtTest], [second], {7}, {7}, [], false, true);
            Histories.Recorded(SERVER, INITIAL, es, s)
  {
    var s := INITIAL;
    es := [];
    s, es := Then(s, es, Entered);
    s, es := Then(s, es, Passed(0));
    s, es := Then(s, es, Took(0, first, Some(FIRST)));
    s, es := Then(s, es, Queued(Entry(FIRST, 0)));
    s, es := Then(s, es, Passed(0));
    s, es := Then(s, es, Took(0, second, Some(SECOND)));
    s, es := Then(s, es, Queued(Entry(SECOND, 0)));
    s, es := Then(s, es, WriterChanged(7, true));
    s, es := Then(s, es, ReaderChanged(7, true));
    s, es := Then(s, es, Committed);
  }

  lemma Then(s: State, es: seq<Event>, e: Event) returns (t: State, fs: seq<Event>)
    requires Histories.Recorded(SERVER, INITIAL, es, s) && Allowed(s, e)
    ensures t == Apply(s, e) && fs == es + [e] && Histories.Recorded(SERVER, INITIAL, fs, t)
  {
    Histories.RecordNext(SERVER, INITIAL, es, s, e);
    t, fs := Apply(s, e), es + [e];
  }

  /** A call that takes two samples at once: the request 1 + 1 is answered with 3 * 3. */
  lemma TwoSamplesInOneCall() returns (es: seq<Event>)
    ensures Lawful(INITIAL, es) && |es| == 11
    ensures es[2] == Took(0, Payload("c", Addition, 1, 1), Some(FIRST))
    ensures es[10] == Answered(Entry(FIRST, 0), Reply("c", SampleId(7, 1), 9))
    ensures OwnReply(es[2].payload, FIRST) == Some(Reply("c", SampleId(7, 1), 2))
  {
    es := TwoSamplesTaken(Payload("c", Addition, 1, 1), Payload("c", Multiplication, 3, 3));
    var _, fs := Then(After(INITIAL, es), es, Answered(Entry(FIRST, 0), Reply("c", SampleId(7, 1), 9)));
    es := fs;
  }

  /** The request 1 + 1 is lost as malformed because the next sample of its call divides by 0. */
  lemma WellFormedRequestIsLost() returns (es: seq<Event>)
    ensures Lawful(INITIAL, es) && |es| == 11
    ensures es[2] == Took(0, Payload("c", Addition, 1, 1), Some(FIRST)) && Exact(es[2].payload) == Some(2)
    ensures After(INITIAL, es[..10]).Matched(7) && es[10] == Dropped(Entry(FIRST, 0))
  {
    es := TwoSamplesTaken(Payload("c", Addition, 1, 1), Payload("c", Division, 1, 0));
    var s := After(INITIAL, es);
    var _, fs := Then(s, es, Dropped(Entry(FIRST, 0)));
    assert fs[..10] == es;
    es := fs;
  }

  // ---------- Every server ----------

  /** The event at j answers the request taken at i. */
  predicate IsAnswerTo(es: seq<Event>, i: nat, j: nat)
    requires i < |es| && j < |es|
  {
    && es[i].Took? && es[i].info.Some?
    && es[j].Answered? && es[j].entry == Entry(es[i].info.value, es[i].cell)
  }

  /** Whatever calls a server has been through, in whatever order its threads made them: the
      requests pushed are, with multiplicity, those queued, answered and dropped; one with an
      identity of its own is in one place; replies come from the sample its call took last. */
  lemma EveryServerKeepsItsPromises(server: ServerApp)
    requires server.Valid()
    ensures var h := server.history;
      && multiset(Pushed(h)) == multiset(server.requests) + multiset(Answers(h)) + multiset(Drops(h))
      && (Distinct(Pushed(h)) ==> forall entry :: entry in Pushed(h) ==>
            (multiset(server.requests)[entry], multiset(Answers(h))[entry], multiset(Drops(h))[entry])
            in {(1, 0, 0), (0, 1, 0), (0, 0, 1)})
      && (forall i, j :: 0 <= i < j < |h| && IsAnswerTo(h, i, j) ==>
            LastTaken(h[..j], h[i].cell).Some? &&
            Some(h[j].reply) == OwnReply(LastTaken(h[..j], h[i].cell).value, h[i].info.value))
  {
    var h := server.history;
    RequestsAreConserved(INITIAL, h);
    if Distinct(Pushed(h)) {
      forall entry | entry in Pushed(h)
        ensures (multiset(server.requests)[entry], multiset(Answers(h))[entry], multiset(Drops(h))[entry])
                in {(1, 0, 0), (0, 1, 0), (0, 0, 1)}
      {
        ExactlyOnePlace(h, entry);
      }
    }
    forall i, j | 0 <= i < j < |h| && IsAnswerTo(h, i, j)
      ensures LastTaken(h[..j], h[i].cell).Some? &&
              Some(h[j].reply) == OwnReply(LastTaken(h[..j], h[i].cell).value, h[i].info.value)
    {
      ReplyUsesLastSampleOfCall(h, i, j);
    }
  }
}
