/** Completion by runs that may overwrite request objects. A queued request whose object was
    overwritten by another client's sample can be rescued: its call takes one more request of the
    client into the object. A server can do so as often as it has requests of the client left that
    have a value. */
module Rescue {
  import Histories
  import opened Options
  import opened Callbacks
  import opened Calculator
  import opened MatchTables
  import opened ServerApp
  import opened ServerRuns
  import opened ClientApp
  import opened RequestReply
  import opened Completion

  // ---------- What can still be answered ----------

  /** For each server, the calls that will take one more request of the client. */
  type Plan = seq<set<nat>>

  /** The number of requests with a value that the server has not taken. */
  function Left(s: System, v: Peer): nat
  {
    var n := if s.y == 0 then 3 else 4;
    if v.taken < n then n - v.taken else 0
  }

  /** The call can take another sample. */
  predicate CanTake(t: State, c: nat)
  {
    c < |t.calls| && if t.stopped then t.calls[c].AtTake? else !t.calls[c].Over?
  }

  predicate Fits(s: System, v: Peer, calls: set<nat>)
  {
    |calls| <= Left(s, v) && forall c :: c in calls ==> CanTake(v.app, c)
  }

  /** Request number k is queued at index j with an object that is usable or will be, and will not
      be forgotten before. */
  predicate IsSaved(s: System, t: State, calls: set<nat>, j: nat, k: nat)
  {
    && j < |t.requests| && t.requests[j].info.id == s.Id(k)
    && var c := t.requests[j].cell;
       && c < |t.cells| && c < |t.calls|
       && (Usable(s, t.cells[c]) || c in calls)
       && if t.stopped then t.replying && j == 0 && t.Matched(s.guid)
          else t.replying && j == 0 ==> !t.Gone(s.guid) && (Usable(s, t.cells[c]) || Survives(s, t, c))
  }

  /** The iteration in progress does not drop the request although its object is not usable. */
  predicate Survives(s: System, t: State, c: nat)
    requires c < |t.cells| && c < |t.calls|
  {
    !t.Matched(s.guid) || Exact(t.cells[c]).Some? || t.calls[c].AtTest? || t.calls[c].AtTake?
  }

  predicate CanServeBy(s: System, v: Peer, calls: set<nat>, k: nat)
    requires k < 4
  {
    || (exists j :: 0 <= j < |v.app.requests| && IsSaved(s, v.app, calls, j, k))
    || (exists c :: 0 <= c < |v.app.calls| && IsInCall(s, v.app, c, k))
    || IsUntaken(s, v, k)
  }

  predicate AnswerableBy(s: System, plan: Plan, k: nat)
    requires k < 4 && |plan| == |s.servers|
  {
    HasReply(s, k) || exists i :: 0 <= i < |s.servers| && CanServeBy(s, s.servers[i], plan[i], k)
  }

  predicate FitsAll(s: System, plan: Plan)
  {
    |plan| == |s.servers| && forall i :: 0 <= i < |plan| ==> Fits(s, s.servers[i], plan[i])
  }

  /** By the plan every request can be answered. */
  predicate Rescues(s: System, plan: Plan)
  {
    FitsAll(s, plan) && forall k :: 0 <= k < 4 ==> AnswerableBy(s, plan, k)
  }

  // ---------- What no plan rescues stays so ----------

  /** The call that takes a request of the client with a value. */
  function Rescued(s: System, v: Peer, e: Event): set<nat>
  {
    if e.Took? && IsNext(s, v, e.payload, e.info) && Exact(e.payload).Some? then {e.cell} else {}
  }

  /** The plan before an event, from the plan after it. */
  function Earlier(s: System, v: Peer, e: Event, calls: set<nat>): set<nat>
  {
    set c | c in calls + Rescued(s, v, e) && c < |v.app.calls|
  }

  lemma EarlierFits(s: System, v: Peer, e: Event, calls: set<nat>)
    requires ServerInv(s, v) && Allowed(v.app, e) && Fits(s, Served(s, v, e), calls)
    ensures Fits(s, v, Earlier(s, v, e, calls))
  {
    SubsetSize(Earlier(s, v, e, calls), calls + Rescued(s, v, e));
    LeftBefore(s, v, e);
    forall c | c in Earlier(s, v, e, calls)
      ensures CanTake(v.app, c)
    {
      assert c in calls ==> CanTake(Apply(v.app, e), c);
    }
  }

  lemma LeftBefore(s: System, v: Peer, e: Event)
    ensures Left(s, Served(s, v, e)) + |Rescued(s, v, e)| <= Left(s, v)
  {
    DivisionHasValue(s.clientId, s.x, s.y);
  }

  lemma SubsetSize(a: set<nat>, b: set<nat>)
    requires a <= b
    ensures |a| <= |b|
  {
    assert b == a + (b - a);
  }

  /** Where a request was before an iteration that leaves it queued. */
  lemma SavedBeforeIteration(s: System, v: Peer, e: Event, calls: set<nat>, j: nat, k: nat)
    requires k < 4 && ServerInv(s, v) && Allowed(v.app, e) && IsIteration(e)
    requires IsSaved(s, Apply(v.app, e), calls, j, k)
    ensures CanServeBy(s, v, Earlier(s, v, e, calls), k)
  {
    var t := v.app;
    var i := if e.Requeued? && j == |t.requests| - 1 then 0 else j + 1;
    assert Tied(s, v.taken, t.requests[i].info, t.cells[t.requests[i].cell]);
    assert IsSaved(s, t, Earlier(s, v, e, calls), i, k);
  }

  lemma SavedBeforeQueued(s: System, v: Peer, e: Event, calls: set<nat>, j: nat, k: nat)
    requires k < 4 && ServerInv(s, v) && Allowed(v.app, e) && e.Queued?
    requires Fits(s, Served(s, v, e), calls) && IsSaved(s, Apply(v.app, e), calls, j, k)
    ensures CanServeBy(s, v, Earlier(s, v, e, calls), k)
  {
    var t := v.app;
    if j == |t.requests| {
      assert InHand(s, v.taken, t, e.entry.cell);
      DivisionHasValue(s.clientId, s.x, s.y);
      assert IsInCall(s, t, e.entry.cell, k);
    } else {
      assert IsSaved(s, t, Earlier(s, v, e, calls), j, k);
    }
  }

  lemma SavedBeforeTake(s: System, v: Peer, e: Event, calls: set<nat>, j: nat, k: nat)
    requires k < 4 && ServerInv(s, v) && Allowed(v.app, e) && e.Took?
    requires IsNext(s, v, e.payload, e.info) || IsForeign(s, e.payload, e.info) || IsEmpty(v, e.cell, e.payload, e.info)
    requires IsSaved(s, Apply(v.app, e), calls, j, k)
    ensures CanServeBy(s, v, Earlier(s, v, e, calls), k)
  {
    assert IsSaved(s, v.app, Earlier(s, v, e, calls), j, k);
  }

  lemma SavedBefore(s: System, v: Peer, e: Event, calls: set<nat>, j: nat, k: nat)
    requires k < 4 && ServerInv(s, v) && Allowed(v.app, e)
    requires e.Took? ==> IsNext(s, v, e.payload, e.info) || IsForeign(s, e.payload, e.info) ||
                         IsEmpty(v, e.cell, e.payload, e.info)
    requires Fits(s, Served(s, v, e), calls) && IsSaved(s, Apply(v.app, e), calls, j, k)
    ensures CanServeBy(s, v, Earlier(s, v, e, calls), k)
  {
    if e.Queued? {
      SavedBeforeQueued(s, v, e, calls, j, k);
    } else if IsIteration(e) {
      SavedBeforeIteration(s, v, e, calls, j, k);
    } else if e.Took? {
      SavedBeforeTake(s, v, e, calls, j, k);
    } else {
      assert IsSaved(s, v.app, Earlier(s, v, e, calls), j, k);
    }
  }

  lemma ServeByBefore(s: System, v: Peer, e: Event, calls: set<nat>, k: nat)
    requires k < 4 && ServerInv(s, v) && s.writer != UNKNOWN_WRITER && Allowed(v.app, e)
    requires e.Took? ==> IsNext(s, v, e.payload, e.info) || IsForeign(s, e.payload, e.info) ||
                         IsEmpty(v, e.cell, e.payload, e.info)
    requires Fits(s, Served(s, v, e), calls) && CanServeBy(s, Served(s, v, e), calls, k)
    ensures CanServeBy(s, v, Earlier(s, v, e, calls), k)
  {
    var w := Served(s, v, e);
    if j :| 0 <= j < |w.app.requests| && IsSaved(s, w.app, calls, j, k) {
      SavedBefore(s, v, e, calls, j, k);
    } else if c :| 0 <= c < |w.app.calls| && IsInCall(s, w.app, c, k) {
      InCallBefore(s, v, e, c, k);
      QueuedIsSaved(s, v, Earlier(s, v, e, calls), k);
    }
  }

  /** What can be answered without a plan can be answered with any. */
  lemma QueuedIsSaved(s: System, v: Peer, calls: set<nat>, k: nat)
    requires k < 4 && WellFormed(v.app) && CanServe(s, v, k)
    ensures CanServeBy(s, v, calls, k)
  {
    if j :| 0 <= j < |v.app.requests| && IsQueued(s, v.app, j, k) {
      assert IsSaved(s, v.app, calls, j, k);
    }
  }

  /** And what can be answered with the empty plan can be answered without one. */
  lemma SavedIsQueued(s: System, v: Peer, k: nat)
    requires k < 4 && CanServeBy(s, v, {}, k)
    ensures CanServe(s, v, k)
  {
    if j :| 0 <= j < |v.app.requests| && IsSaved(s, v.app, {}, j, k) {
      assert IsQueued(s, v.app, j, k);
    }
  }

  lemma SameServeBy(s: System, s': System, v: Peer, w: Peer, calls: set<nat>, k: nat)
    requires k < 4 && SameNames(s, s') && w.app == v.app && w.taken == v.taken
    ensures CanServeBy(s', w, calls, k) <==> CanServeBy(s, v, calls, k)
    ensures Fits(s', w, calls) <==> Fits(s, v, calls)
  {
    assert forall j :: IsSaved(s', v.app, calls, j, k) <==> IsSaved(s, v.app, calls, j, k);
    assert forall c :: IsInCall(s', v.app, c, k) <==> IsInCall(s, v.app, c, k);
  }

  function EarlierPlan(s: System, step: Step, plan: Plan): Plan
    requires |plan| == |s.servers|
  {
    if step.Serves? && step.i < |plan| then
      plan[step.i := Earlier(s, s.servers[step.i], step.e, plan[step.i])]
    else plan
  }

  lemma PlanFitsBefore(s: System, step: Step, plan: Plan)
    requires Inv(s) && Enabled(s, step) && FitsAll(Next(s, step), plan)
    ensures FitsAll(s, EarlierPlan(s, step, plan))
  {
    var s' := Next(s, step);
    NextGrows(s, step);
    forall i | 0 <= i < |plan|
      ensures Fits(s, s.servers[i], EarlierPlan(s, step, plan)[i])
    {
      assert Fits(s', s'.servers[i], plan[i]);
      if step.Serves? && step.i == i {
        assert Fits(s, Served(s, s.servers[i], step.e), plan[i]);
        EarlierFits(s, s.servers[i], step.e, plan[i]);
      } else {
        SameServeBy(s, s', s.servers[i], s'.servers[i], plan[i], 0);
      }
    }
  }

  lemma AnswerableByBefore(s: System, step: Step, plan: Plan, k: nat)
    requires k < 4 && Inv(s) && Enabled(s, step) && FitsAll(Next(s, step), plan)
    requires AnswerableBy(Next(s, step), plan, k)
    ensures AnswerableBy(s, EarlierPlan(s, step, plan), k)
  {
    var s', before := Next(s, step), EarlierPlan(s, step, plan);
    NextGrows(s, step);
    if HasReply(s', k) {
      ReplyBefore(s, step, k);
      if !HasReply(s, k) {
        QueuedIsSaved(s, s.servers[step.i], before[step.i], k);
      }
    } else {
      var i :| 0 <= i < |s'.servers| && CanServeBy(s', s'.servers[i], plan[i], k);
      assert Fits(s', s'.servers[i], plan[i]);
      if step.Serves? && step.i == i {
        var w := Served(s, s.servers[i], step.e);
        SameServeBy(s, s', w, s'.servers[i], plan[i], k);
        ServeByBefore(s, s.servers[i], step.e, plan[i], k);
      } else {
        SameServeBy(s, s', s.servers[i], s'.servers[i], plan[i], k);
      }
    }
  }

  lemma {:induction false} RescuesBefore(s: System, steps: seq<Step>, plan: Plan) returns (before: Plan)
    requires Inv(s) && Runs(false, s, steps) && Rescues(Final(false, s, steps), plan)
    ensures Rescues(s, before)
    decreases |steps|
  {
    before := plan;
    if steps != [] {
      var step := steps[0];
      StepKeepsInv(s, step);
      NextGrows(s, step);
      var next := RescuesBefore(Next(s, step), steps[1..], plan);
      before := EarlierPlan(s, step, next);
      PlanFitsBefore(s, step, next);
      forall k | 0 <= k < 4
        ensures AnswerableBy(s, before, k)
      {
        AnswerableByBefore(s, step, next, k);
      }
    }
  }

  lemma CompletedIsRescued(s: System, steps: seq<Step>) returns (plan: Plan)
    requires Inv(s) && Runs(false, s, steps) && Final(false, s, steps).client.byCallback
    ensures Rescues(s, plan)
  {
    RunsKeepInv(false, s, steps);
    var t := Final(false, s, steps);
    FourSent(t);
    var empty := seq(|t.servers|, _ => {});
    forall k | 0 <= k < 4
      ensures AnswerableBy(t, empty, k)
    {
      assert t.client.ids[k] in t.client.status && HasMark(t, k);
    }
    plan := RescuesBefore(s, steps, empty);
  }

  // ---------- A server carries out its part of a plan ----------

  /** The steps lead the system from s to t. */
  predicate Leads(s: System, steps: seq<Step>, t: System)
  {
    Runs(false, s, steps) && Final(false, s, steps) == t
  }

  lemma LeadsOn(s: System, steps: seq<Step>, t: System, more: seq<Step>, u: System)
    requires Leads(s, steps, t) && Leads(t, more, u)
    ensures Leads(s, steps + more, u)
  {
    Histories.Concat(Behaviour(false), s, steps, more);
  }

  /** And only server i moves. */
  ghost predicate Moves(s: System, steps: seq<Step>, t: System, i: nat)
  {
    Leads(s, steps, t) && Inv(t) && OnlyPeer(s, i, t)
  }

  lemma MoveOn(s: System, steps: seq<Step>, t: System, i: nat, e: Event) returns (more: seq<Step>, u: System)
    requires Moves(s, steps, t, i) && Enabled(t, Serves(i, e))
    ensures Moves(s, more, u, i) && u.servers[i] == Served(t, t.servers[i], e)
  {
    more, u := steps + [Serves(i, e)], Next(t, Serves(i, e));
    Histories.Extend(Behaviour(false), s, steps, Serves(i, e));
    StepKeepsInv(t, Serves(i, e));
  }

  lemma MovesOn(s: System, steps: seq<Step>, t: System, i: nat, more: seq<Step>, u: System)
    requires Moves(s, steps, t, i) && Moves(t, more, u, i)
    ensures Moves(s, steps + more, u, i)
  {
    LeadsOn(s, steps, t, more, u);
  }

  /** What the server could answer by the first plan it can by the second, or has answered. */
  predicate PeerKeeps(s: System, v: Peer, calls: set<nat>, w: Peer, later: set<nat>)
  {
    && (forall k :: 0 <= k < 4 && CanServeBy(s, v, calls, k) ==> CanServeBy(s, w, later, k) || Unread(w, s.Id(k)))
    && (forall k :: 0 <= k < 4 && Unread(v, s.Id(k)) ==> Unread(w, s.Id(k)))
  }

  /** The plan after an event: a call that takes a request of the client is done with it. */
  function Remaining(e: Event, calls: set<nat>): set<nat>
  {
    if e.Took? then calls - {e.cell} else calls
  }

  /** The event helps a plan: a take rescues, and an iteration answers or keeps what can be saved. */
  predicate Helps(s: System, v: Peer, e: Event)
  {
    match e
    case Passed(_) => true
    case Queued(_) => true
    case Took(_, payload, info) => IsNext(s, v, payload, info) && info.Some? && Exact(payload).Some?
    case Dropped(entry) => v.app.Gone(entry.info.client) || ReplyNow(v.app, entry).None?
    case Requeued(_, _) => true
    case Answered(_, reply) => reply.clientId == s.clientId
    case _ => false
  }

  /** The first request of the queue does not need the plan to survive the iteration. */
  predicate FrontIsSafe(s: System, t: State, calls: set<nat>)
  {
    forall k :: 0 <= k < 4 && IsSaved(s, t, calls, 0, k) ==>
      var p := t.cells[t.requests[0].cell];
      Usable(s, p) || !t.Matched(s.guid) || Exact(p).Some?
  }

  lemma SavedAfter(s: System, v: Peer, e: Event, calls: set<nat>, j: nat, k: nat)
    requires k < 4 && ServerInv(s, v) && Allowed(v.app, e) && Helps(s, v, e) && IsSaved(s, v.app, calls, j, k)
    requires !v.app.stopped || e.Took?
    requires e.Dropped? ==> FrontIsSafe(s, v.app, calls)
    ensures CanServeBy(s, Served(s, v, e), Remaining(e, calls), k) || Unread(Served(s, v, e), s.Id(k))
  {
    var t, u, w := v.app, Apply(v.app, e), Served(s, v, e);
    assert Tied(s, v.taken, t.requests[j].info, t.cells[t.requests[j].cell]);
    if IsIteration(e) {
      if j > 0 {
        assert IsSaved(s, u, calls, j - 1, k);
      } else if e.Requeued? {
        assert IsSaved(s, u, calls, |u.requests| - 1, k);
      } else {
        assert e.Answered? && w.unread[|v.unread|] == e.reply;
      }
    } else {
      assert IsSaved(s, u, Remaining(e, calls), j, k);
    }
  }

  lemma HelpKeeps(s: System, v: Peer, e: Event, calls: set<nat>)
    requires ServerInv(s, v) && s.writer != UNKNOWN_WRITER && Allowed(v.app, e) && Helps(s, v, e)
    requires !v.app.stopped || e.Took?
    requires e.Dropped? ==> FrontIsSafe(s, v.app, calls)
    ensures PeerKeeps(s, v, calls, Served(s, v, e), Remaining(e, calls))
  {
    var w := Served(s, v, e);
    forall k | 0 <= k < 4 && CanServeBy(s, v, calls, k)
      ensures CanServeBy(s, w, Remaining(e, calls), k) || Unread(w, s.Id(k))
    {
      if j :| 0 <= j < |v.app.requests| && IsSaved(s, v.app, calls, j, k) {
        assert Tied(s, v.taken, v.app.requests[j].info, v.app.cells[v.app.requests[j].cell]);
        SavedAfter(s, v, e, calls, j, k);
      } else if c :| 0 <= c < |v.app.calls| && IsInCall(s, v.app, c, k) {
        InCallAfter(s, v, e, c, k);
        QueuedIsSaved(s, w, Remaining(e, calls), k);
      } else {
        UntakenAfter(s, v, e, k);
        QueuedIsSaved(s, w, Remaining(e, calls), k);
      }
    }
    forall k | 0 <= k < 4 && Unread(v, s.Id(k))
      ensures Unread(w, s.Id(k))
    {
      var j :| 0 <= j < |v.unread| && v.unread[j].related == s.Id(k);
      assert w.unread[j] == v.unread[j];
    }
  }

  /** An iteration that answers what it can and otherwise lets the write fail. */
  lemma SafeIteration(s: System, v: Peer) returns (e: Event)
    requires WellFormed(v.app) && v.app.replying
    ensures IsIteration(e) && Allowed(v.app, e) && Helps(s, v, e)
  {
    var t, entry := v.app, v.app.requests[0];
    if t.Gone(entry.info.client) {
      e := Dropped(entry);
    } else if !t.Matched(entry.info.client) {
      e := Requeued(entry, false);
    } else if ReplyNow(t, entry).None? {
      e := Dropped(entry);
    } else if ReplyNow(t, entry).value.clientId == s.clientId {
      e := Answered(entry, ReplyNow(t, entry).value);
    } else {
      e := Requeued(entry, true);
    }
  }

  /** The steps move server i, and what it could answer by the first plan it can by the second. */
  ghost predicate Carries(s: System, calls: set<nat>, steps: seq<Step>, t: System, i: nat, later: set<nat>)
  {
    && Moves(s, steps, t, i)
    && PeerKeeps(s, s.servers[i], calls, t.servers[i], later) && Fits(t, t.servers[i], later)
    && t.servers[i].app.stopped == s.servers[i].app.stopped
  }

  lemma CarriesOn(s: System, calls: set<nat>, steps: seq<Step>, t: System, i: nat, later: set<nat>,
                  more: seq<Step>, u: System, last: set<nat>)
    requires Carries(s, calls, steps, t, i, later) && Carries(t, later, more, u, i, last)
    ensures Carries(s, calls, steps + more, u, i, last)
  {
    MovesOn(s, steps, t, i, more, u);
    PeerKeepsOn(s, t, s.servers[i], calls, t.servers[i], later, u.servers[i], last);
  }

  lemma PeerKeepsOn(s: System, t: System, v: Peer, calls: set<nat>, w: Peer, later: set<nat>, x: Peer, last: set<nat>)
    requires SameNames(s, t) && PeerKeeps(s, v, calls, w, later) && PeerKeeps(t, w, later, x, last)
    ensures PeerKeeps(s, v, calls, x, last)
  {
    forall k | 0 <= k < 4 && CanServeBy(s, v, calls, k)
      ensures CanServeBy(s, x, last, k) || Unread(x, s.Id(k))
    {
      SameServeBy(s, t, w, w, later, k);
      SameServeBy(s, t, x, x, last, k);
      assert t.Id(k) == s.Id(k);
    }
    forall k | 0 <= k < 4 && Unread(v, s.Id(k))
      ensures Unread(x, s.Id(k))
    {
      assert t.Id(k) == s.Id(k);
    }
  }

  lemma FitsAfter(s: System, v: Peer, e: Event, calls: set<nat>)
    requires Allowed(v.app, e) && Helps(s, v, e) && Fits(s, v, calls)
    requires e.Took? ==> e.cell in calls
    ensures Fits(s, Served(s, v, e), Remaining(e, calls))
  {
    DivisionHasValue(s.clientId, s.x, s.y);
  }

  lemma CarryOn(s: System, calls: set<nat>, steps: seq<Step>, t: System, i: nat, later: set<nat>, e: Event)
      returns (more: seq<Step>, u: System)
    requires Carries(s, calls, steps, t, i, later) && Enabled(t, Serves(i, e)) && Helps(t, t.servers[i], e)
    requires !t.servers[i].app.stopped || e.Took?
    requires e.Took? ==> e.cell in later
    requires e.Dropped? ==> FrontIsSafe(t, t.servers[i].app, later)
    ensures Carries(s, calls, more, u, i, Remaining(e, later)) && u.servers[i] == Served(t, t.servers[i], e)
  {
    more, u := MoveOn(s, steps, t, i, e);
    var v, w := t.servers[i], u.servers[i];
    HelpKeeps(t, v, e, later);
    FitsAfter(t, v, e, later);
    PeerKeepsOn(s, t, s.servers[i], calls, v, later, w, Remaining(e, later));
    SameServeBy(t, u, w, w, Remaining(e, later), 0);
  }

  lemma CarryNothing(s: System, i: nat, calls: set<nat>)
    requires Inv(s) && i < |s.servers| && Fits(s, s.servers[i], calls)
    ensures Carries(s, calls, [], s, i, calls)
  {
  }

  /** A call of the plan takes the next request of the client. */
  lemma TakeByPlan(s: System, i: nat, calls: set<nat>, c: nat) returns (steps: seq<Step>, t: System)
    requires Inv(s) && s.sent == 4 && i < |s.servers| && Fits(s, s.servers[i], calls) && c in calls
    requires s.servers[i].app.Stands(c, AtTake)
    ensures Carries(s, calls, steps, t, i, calls - {c})
    ensures t.servers[i].app.replying == s.servers[i].app.replying
    ensures t.servers[i].app.requests == s.servers[i].app.requests
    ensures c < |t.servers[i].app.cells| && Usable(t, t.servers[i].app.cells[c])
  {
    var v := s.servers[i];
    DivisionHasValue(s.clientId, s.x, s.y);
    assert |{c}| <= |calls| by {
      SubsetSize({c}, calls);
    }
    CarryNothing(s, i, calls);
    var e := Took(c, s.Own(v.taken), Some(Info(s.guid, s.Id(v.taken))));
    steps, t := CarryOn(s, calls, [], s, i, calls, e);
  }

  /** A call that is about to push or to test the stop flag does so. */
  lemma ReachTake(s: System, i: nat, calls: set<nat>, c: nat) returns (steps: seq<Step>, t: System)
    requires Inv(s) && i < |s.servers| && Fits(s, s.servers[i], calls) && c in calls
    requires var a := s.servers[i].app; !a.stopped && (a.replying ==> !a.calls[c].Holding?)
    ensures Carries(s, calls, steps, t, i, calls) && t.servers[i].app.Stands(c, AtTake)
    ensures t.servers[i].app.replying == s.servers[i].app.replying
    ensures t.servers[i].app.replying ==> t.servers[i].app.requests == s.servers[i].app.requests
  {
    CarryNothing(s, i, calls);
    steps, t := [], s;
    assert CanTake(s.servers[i].app, c);
    if s.servers[i].app.calls[c].Holding? {
      steps, t := CarryOn(s, calls, steps, t, i, calls, Queued(Entry(s.servers[i].app.calls[c].item, c)));
    }
    if t.servers[i].app.calls[c].AtTest? {
      steps, t := CarryOn(s, calls, steps, t, i, calls, Passed(c));
    }
  }

  /** Whatever the call is doing, it goes on to take the next request of the client. */
  lemma RescueCall(s: System, i: nat, calls: set<nat>, c: nat) returns (steps: seq<Step>, t: System)
    requires Inv(s) && s.sent == 4 && i < |s.servers| && Fits(s, s.servers[i], calls) && c in calls
    requires var a := s.servers[i].app; !a.stopped && (a.replying ==> !a.calls[c].Holding?)
    ensures Carries(s, calls, steps, t, i, calls - {c})
    ensures t.servers[i].app.replying == s.servers[i].app.replying
    ensures t.servers[i].app.replying ==> t.servers[i].app.requests == s.servers[i].app.requests
    ensures c < |t.servers[i].app.cells| && Usable(t, t.servers[i].app.cells[c])
  {
    steps, t := ReachTake(s, i, calls, c);
    var more, u := TakeByPlan(t, i, calls, c);
    CarriesOn(s, calls, steps, t, i, calls, more, u, calls - {c});
    steps, t := steps + more, u;
  }

  /** Between two iterations the calls of the plan take their requests one after the other. */
  lemma {:induction false} RescueCalls(s: System, i: nat, calls: set<nat>) returns (steps: seq<Step>, t: System)
    requires Inv(s) && s.sent == 4 && i < |s.servers| && Fits(s, s.servers[i], calls)
    requires !s.servers[i].app.stopped && !s.servers[i].app.replying
    ensures Carries(s, calls, steps, t, i, {})
    decreases |calls|
  {
    CarryNothing(s, i, calls);
    steps, t := [], s;
    if c :| c in calls {
      steps, t := RescueCall(s, i, calls, c);
      var more, u := RescueCalls(t, i, calls - {c});
      CarriesOn(s, calls, steps, t, i, calls - {c}, more, u, {});
      steps, t := steps + more, u;
    } else {
      assert calls == {};
    }
  }

  /** The iteration in progress is finished, after the call of its request has been rescued. */
  lemma FinishByPlan(s: System, i: nat, calls: set<nat>) returns (steps: seq<Step>, t: System, later: set<nat>)
    requires Inv(s) && s.sent == 4 && i < |s.servers| && Fits(s, s.servers[i], calls)
    requires !s.servers[i].app.stopped && s.servers[i].app.replying
    ensures Carries(s, calls, steps, t, i, later) && !t.servers[i].app.replying
  {
    CarryNothing(s, i, calls);
    steps, t, later := [], s, calls;
    var c := s.servers[i].app.requests[0].cell;
    if c in calls && !s.servers[i].app.calls[c].Holding? {
      steps, t := RescueCall(s, i, calls, c);
      later := calls - {c};
    }
    var e := SafeIteration(t, t.servers[i]);
    steps, t := CarryOn(s, calls, steps, t, i, later, e);
  }

  /** A stopped server can only complete its iteration: if need be, the call of its request takes
      the next request of the client. */
  lemma StoppedByPlan(s: System, i: nat, calls: set<nat>) returns (steps: seq<Step>, t: System)
    requires Inv(s) && s.sent == 4 && i < |s.servers| && Fits(s, s.servers[i], calls) && s.servers[i].app.stopped
    ensures Carries(s, calls, steps, t, i, {})
  {
    CarryNothing(s, i, calls);
    steps, t := [], s;
    var a, later := s.servers[i].app, calls;
    if a.replying && a.requests[0].cell in calls {
      later := calls - {a.requests[0].cell};
      assert CanTake(a, a.requests[0].cell);
      steps, t := TakeByPlan(s, i, calls, a.requests[0].cell);
    }
    StoppedNeedsNoPlan(t, t.servers[i], later);
    PeerKeepsOn(s, t, s.servers[i], calls, t.servers[i], later, t.servers[i], {});
  }

  lemma StoppedNeedsNoPlan(s: System, v: Peer, calls: set<nat>)
    requires v.app.stopped && (v.app.replying && v.app.requests != [] ==> v.app.requests[0].cell !in calls)
    ensures PeerKeeps(s, v, calls, v, {})
  {
    forall k | 0 <= k < 4 && CanServeBy(s, v, calls, k)
      ensures CanServeBy(s, v, {}, k)
    {
      var j :| 0 <= j < |v.app.requests| && IsSaved(s, v.app, calls, j, k);
      assert IsSaved(s, v.app, {}, j, k);
    }
  }

  /** Server i carries out its part of the plan. */
  lemma RescuePeer(s: System, i: nat, calls: set<nat>) returns (steps: seq<Step>, t: System)
    requires Inv(s) && s.sent == 4 && i < |s.servers| && Fits(s, s.servers[i], calls)
    ensures Carries(s, calls, steps, t, i, {})
  {
    if s.servers[i].app.stopped {
      steps, t := StoppedByPlan(s, i, calls);
    } else {
      CarryNothing(s, i, calls);
      var later := calls;
      steps, t := [], s;
      if s.servers[i].app.replying {
        steps, t, later := FinishByPlan(s, i, calls);
      }
      var more, u := RescueCalls(t, i, later);
      CarriesOn(s, calls, steps, t, i, later, more, u, {});
      steps, t := steps + more, u;
    }
  }

  // ---------- All servers ----------

  /** What one server has carried out, for the whole plan. */
  lemma PlanAfterPeer(s: System, plan: Plan, steps: seq<Step>, t: System, i: nat)
    requires Rescues(s, plan) && i < |plan| && Carries(s, plan[i], steps, t, i, {})
    ensures Rescues(t, plan[i := {}])
  {
    var later := plan[i := {}];
    forall n | 0 <= n < |later|
      ensures Fits(t, t.servers[n], later[n])
    {
      assert Fits(s, s.servers[n], plan[n]);
      SameServeBy(s, t, s.servers[n], s.servers[n], plan[n], 0);
    }
    forall k | 0 <= k < 4
      ensures AnswerableBy(t, later, k)
    {
      PlanAfterPeerFor(s, plan, steps, t, i, k);
    }
  }

  lemma PlanAfterPeerFor(s: System, plan: Plan, steps: seq<Step>, t: System, i: nat, k: nat)
    requires k < 4 && |plan| == |s.servers| && AnswerableBy(s, plan, k)
    requires i < |plan| && Carries(s, plan[i], steps, t, i, {})
    ensures AnswerableBy(t, plan[i := {}], k)
  {
    var later := plan[i := {}];
    assert t.Id(k) == s.Id(k);
    if HasMark(s, k) || HeldByClient(s.client, s.Id(k)) {
      assert HasReply(t, k);
    } else if n :| 0 <= n < |s.servers| && Unread(s.servers[n], s.Id(k)) {
      assert Unread(t.servers[n], t.Id(k));
    } else {
      var n :| 0 <= n < |s.servers| && CanServeBy(s, s.servers[n], plan[n], k);
      if n == i {
        SameServeBy(s, t, t.servers[i], t.servers[i], {}, k);
        assert CanServeBy(t, t.servers[i], later[i], k) || Unread(t.servers[i], t.Id(k));
      } else {
        SameServeBy(s, t, s.servers[n], t.servers[n], plan[n], k);
        assert CanServeBy(t, t.servers[n], later[n], k);
      }
    }
  }

  /** The servers before n have carried out their parts. */
  lemma {:induction false} RescueFrom(s: System, plan: Plan, n: nat) returns (steps: seq<Step>, t: System)
    requires Waiting(s) && Rescues(s, plan) && n <= |plan| && forall i :: 0 <= i < n ==> plan[i] == {}
    ensures Leads(s, steps, t)
    ensures Waiting(t) && forall k :: 0 <= k < 4 ==> Answerable(t, k)
    decreases |plan| - n
  {
    if n == |plan| {
      steps, t := [], s;
      forall k | 0 <= k < 4
        ensures Answerable(s, k)
      {
        EmptyPlan(s, plan, k);
      }
    } else {
      assert Fits(s, s.servers[n], plan[n]);
      steps, t := RescuePeer(s, n, plan[n]);
      PlanAfterPeer(s, plan, steps, t, n);
      var more, u := RescueFrom(t, plan[n := {}], n + 1);
      LeadsOn(s, steps, t, more, u);
      steps, t := steps + more, u;
    }
  }

  lemma EmptyPlan(s: System, plan: Plan, k: nat)
    requires k < 4 && |plan| == |s.servers| && AnswerableBy(s, plan, k)
    requires forall i :: 0 <= i < |plan| ==> plan[i] == {}
    ensures Answerable(s, k)
  {
    if !HasReply(s, k) {
      var i :| 0 <= i < |s.servers| && CanServeBy(s, s.servers[i], plan[i], k);
      SavedIsQueued(s, s.servers[i], k);
    }
  }

  /** Waiting for the client to send its requests does not disturb a plan. */
  lemma PlanKept(s: System, steps: seq<Step>, t: System, plan: Plan)
    requires Rescues(s, plan) && Goes(s, steps, t) && t.servers == s.servers
    ensures Rescues(t, plan)
  {
    forall i | 0 <= i < |plan|
      ensures Fits(t, t.servers[i], plan[i])
    {
      assert Fits(s, s.servers[i], plan[i]);
      SameServeBy(s, t, s.servers[i], s.servers[i], plan[i], 0);
    }
    forall k | 0 <= k < 4
      ensures AnswerableBy(t, plan, k)
    {
      assert AnswerableBy(s, plan, k);
      if !HasReply(s, k) {
        var i :| 0 <= i < |s.servers| && CanServeBy(s, s.servers[i], plan[i], k);
        SameServeBy(s, t, s.servers[i], s.servers[i], plan[i], k);
      }
    }
  }

  lemma CompleteByPlan(s: System, plan: Plan) returns (steps: seq<Step>)
    requires Active(s) && Rescues(s, plan)
    ensures Runs(false, s, steps) && Final(false, s, steps).client.byCallback
  {
    var first, t := ReachWaiting(s);
    PlanKept(s, first, t, plan);
    SparingRuns(s, first);
    var second, u := RescueFrom(t, plan, 0);
    var third, w := AllReplies(u);
    SparingRuns(u, third);
    Histories.Concat(Behaviour(false), s, first, second);
    Histories.Concat(Behaviour(false), s, first + second, third);
    steps := first + second + third;
  }

  /** From every reachable state in which the client has neither stopped nor failed: some further
      steps, whatever they overwrite, make the reply callback stop the client if and only if some
      plan rescues all its requests. */
  lemma CompletionReachableByRescue(s: System, past: seq<Step>)
    requires Initial(s) && Runs(false, s, past)
    requires var t := Final(false, s, past); !t.client.stopped && t.client.phase != Failed
    ensures var t := Final(false, s, past);
            (exists steps :: Runs(false, t, steps) && Final(false, t, steps).client.byCallback) <==>
            (exists plan :: Rescues(t, plan))
  {
    InitialInv(s);
    RunsKeepInv(false, s, past);
    var t := Final(false, s, past);
    if plan :| Rescues(t, plan) {
      var steps := CompleteByPlan(t, plan);
    }
    if steps :| Runs(false, t, steps) && Final(false, t, steps).client.byCallback {
      var plan := CompletedIsRescued(t, steps);
    }
  }

  // ---------- A run with an inexact reply ----------

  /** The first call of a server takes and queues the next request of the client. */
  lemma TakeAndQueue(s: System, q: seq<Entry>, p: Payload) returns (steps: seq<Step>, t: System)
    requires Inv(s) && |s.servers| > 0 && s.servers[0].taken < s.sent
    requires s.servers[0].app == State(q, [AtTest], [p], {}, {}, [], false, false)
    ensures Moves(s, steps, t, 0)
    ensures var k := s.servers[0].taken;
            var entry := Entry(Info(s.guid, s.Id(k)), 0);
            t.servers[0] == Peer(State(q + [entry], [AtTest], [s.Own(k)], {}, {}, [], false, false),
                                 k + 1, s.servers[0].unread)
  {
    var k := s.servers[0].taken;
    var info := Info(s.guid, s.Id(k));
    steps, t := PassAndTake(s, q, p);
    steps, t := MoveOn(s, steps, t, 0, Queued(Entry(info, 0)));
  }

  lemma PassAndTake(s: System, q: seq<Entry>, p: Payload) returns (steps: seq<Step>, t: System)
    requires Inv(s) && |s.servers| > 0 && s.servers[0].taken < s.sent
    requires s.servers[0].app == State(q, [AtTest], [p], {}, {}, [], false, false)
    ensures Moves(s, steps, t, 0)
    ensures var k := s.servers[0].taken;
            var info := Info(s.guid, s.Id(k));
            t.servers[0] == Peer(State(q, [Holding(info)], [s.Own(k)], {}, {}, [], false, false),
                                 k + 1, s.servers[0].unread)
  {
    var k := s.servers[0].taken;
    steps, t := MoveOn(s, [], s, 0, Passed(0));
    steps, t := MoveOn(s, steps, t, 0, Took(0, s.Own(k), Some(Info(s.guid, s.Id(k)))));
  }

  /** It takes the first two. */
  lemma TwoTaken(s: System) returns (steps: seq<Step>, t: System, second: Entry)
    requires Inv(s) && s.sent >= 2 && |s.servers| > 0 && s.servers[0] == Peer(INITIAL, 0, [])
    ensures Moves(s, steps, t, 0)
    ensures var first := Entry(Info(s.guid, s.Id(0)), 0);
            t.servers[0] == Peer(State([first, second], [AtTest], [s.Own(1)], {}, {}, [], false, false), 2, [])
  {
    second := Entry(Info(s.guid, s.Id(1)), 0);
    steps, t := MoveOn(s, [], s, 0, Entered);
    var more, u := TakeAndQueue(t, [], EMPTY_REQUEST);
    MovesOn(s, steps, t, 0, more, u);
    steps, t := steps + more, u;
    more, u := TakeAndQueue(t, t.servers[0].app.requests, s.Own(0));
    MovesOn(s, steps, t, 0, more, u);
    steps, t := steps + more, u;
  }

  /** The first request is processed although its object holds the second one. */
  lemma FirstAnswered(s: System, second: Entry) returns (steps: seq<Step>, t: System)
    requires Inv(s) && |s.servers| > 0
    requires var first := Entry(Info(s.guid, s.Id(0)), 0);
             s.servers[0] == Peer(State([first, second], [AtTest], [s.Own(1)], {}, {}, [], false, false), 2, [])
    ensures Moves(s, steps, t, 0)
    ensures t.servers[0].unread == [Reply(s.clientId, s.Id(0), s.x as int - s.y as int)]
  {
    steps, t := MatchClient(s);
    var more, u := Process(t);
    MovesOn(s, steps, t, 0, more, u);
    steps, t := steps + more, u;
  }

  lemma MatchClient(s: System) returns (steps: seq<Step>, t: System)
    requires Inv(s) && |s.servers| > 0 && !s.servers[0].app.replying && !s.servers[0].app.stopped
    ensures Moves(s, steps, t, 0) && Serving(t, t.servers[0].app)
    ensures var a, b := s.servers[0].app, t.servers[0].app;
            t.servers[0].unread == s.servers[0].unread && b.requests == a.requests && b.cells == a.cells
  {
    steps, t := MoveOn(s, [], s, 0, WriterChanged(s.guid, true));
    steps, t := MoveOn(s, steps, t, 0, ReaderChanged(s.guid, true));
  }

  lemma Process(s: System) returns (steps: seq<Step>, t: System)
    requires Inv(s) && |s.servers| > 0 && s.servers[0].unread == [] && Serving(s, s.servers[0].app)
    requires var a := s.servers[0].app;
             a.requests != [] && a.requests[0] == Entry(Info(s.guid, s.Id(0)), 0) && a.cells == [s.Own(1)]
    ensures Moves(s, steps, t, 0)
    ensures t.servers[0].unread == [Reply(s.clientId, s.Id(0), s.x as int - s.y as int)]
  {
    var reply := Reply(s.clientId, s.Id(0), s.x as int - s.y as int);
    steps, t := MoveOn(s, [], s, 0, Committed);
    steps, t := MoveOn(s, steps, t, 0, Answered(s.servers[0].app.requests[0], reply));
  }

  /** The client reports the reply. */
  lemma ReplyReported(s: System) returns (steps: seq<Step>, t: System)
    requires Waiting(s) && |s.servers| > 0 && s.client.reported == [] && s.servers[0].unread != []
    requires s.servers[0].unread[0].related == s.Id(0)
    ensures Leads(s, steps, t) && SameNames(s, t)
    ensures t.client.reported == [AsSample(s.servers[0].unread[0], true)]
  {
    steps, t := HoldNext(s, 0);
    FirstReport(t, |s.client.calls|);
    var more, u := MarkHeld(t, |s.client.calls|);
    GoesOn(s, steps, t, more, u);
    steps, t := steps + more, u;
    SparingRuns(s, steps);
  }

  lemma FirstReport(s: System, c: nat)
    requires Waiting(s) && s.client.reported == [] && c < |s.client.calls| && s.client.calls[c].Holding?
    requires s.client.calls[c].item.related == s.Id(0)
    ensures Next(s, Acts(Mark(c))).client.reported == [s.client.calls[c].item]
  {
    assert s.client.ids[0] in s.client.status;
    assert s.client.calls[c].item.usable;
  }

  lemma DifferenceWritten(s: System) returns (steps: seq<Step>, t: System)
    requires Inv(s) && s.sent >= 2 && |s.servers| > 0 && s.servers[0] == Peer(INITIAL, 0, [])
    ensures Moves(s, steps, t, 0)
    ensures t.servers[0].unread == [Reply(s.clientId, s.Id(0), s.x as int - s.y as int)]
  {
    var second, more, u;
    steps, t, second := TwoTaken(s);
    more, u := FirstAnswered(t, second);
    MovesOn(s, steps, t, 0, more, u);
    steps, t := steps + more, u;
  }

  lemma DifferenceReported(s: System) returns (steps: seq<Step>, t: System)
    requires Waiting(s) && |s.servers| > 0 && s.servers[0] == Peer(INITIAL, 0, []) && s.client.reported == []
    ensures Leads(s, steps, t) && SameNames(s, t)
    ensures t.client.reported == [ReplySample(s.Id(0), s.x as int - s.y as int, true)]
  {
    steps, t := DifferenceWritten(s);
    var more, u := ReplyReported(t);
    LeadsOn(s, steps, t, more, u);
    steps, t := steps + more, u;
  }

  /** The client starts up and sends its requests. */
  lemma StartUp(s: System) returns (steps: seq<Step>, t: System)
    requires Initial(s)
    ensures Leads(s, steps, t) && Waiting(t) && OnlyClient(s, t)
  {
    InitialInv(s);
    steps, t := ReachWaiting(s);
    SparingRuns(s, steps);
  }

  lemma DifferenceIsInexact(s: System)
    requires s.y != 0
    ensures HasValue(s, 1, s.x as int - s.y as int) && !HasValue(s, 0, s.x as int - s.y as int)
  {
  }

  /** With any divisor other than 0, a run in which a call takes the addition and the subtraction, one
      after the other, and the client reports the difference as the reply to its addition. */
  lemma InexactReply(s: System) returns (steps: seq<Step>, t: System)
    requires Initial(s) && |s.servers| > 0 && s.y != 0
    ensures Leads(s, steps, t)
    ensures |t.client.reported| == 1 && t.client.reported[0].related == t.Id(0)
    ensures HasValue(t, 1, t.client.reported[0].result) && !HasValue(t, 0, t.client.reported[0].result)
  {
    steps, t := StartUp(s);
    var more, u := DifferenceReported(t);
    LeadsOn(s, steps, t, more, u);
    steps, t := steps + more, u;
    DifferenceIsInexact(t);
  }
}
