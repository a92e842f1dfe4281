/** When the client of the request/reply system can still complete: from any reachable state some
    further steps make its reply callback stop it if and only if each of its requests that has no
    reply yet can still be answered. */
module Completion {
  import Histories
  import opened Options
  import opened Callbacks
  import opened Calculator
  import opened MatchTables
  import opened ServerApp
  import opened ServerRuns
  import opened ClientApp
  import opened RequestReply

  // ---------- What can still be answered ----------

  /** The client has reported a reply to request number k. */
  predicate HasMark(s: System, k: nat)
  {
    s.Id(k) in s.client.status && s.client.status[s.Id(k)]
  }

  predicate Unread(v: Peer, id: SampleId)
  {
    exists j :: 0 <= j < |v.unread| && v.unread[j].related == id
  }

  predicate HeldByClient(c: Client, id: SampleId)
  {
    exists i :: 0 <= i < |c.calls| && c.calls[i].Holding? && c.calls[i].item.related == id
  }

  /** A reply to request number k has been written and will reach the client. */
  predicate Written(s: System, k: nat)
  {
    HeldByClient(s.client, s.Id(k)) || exists i :: 0 <= i < |s.servers| && Unread(s.servers[i], s.Id(k))
  }

  /** A reply computed from the payload has a value and reaches the client. */
  predicate Usable(s: System, p: Payload)
  {
    p.clientId == s.clientId && Exact(p).Some?
  }

  /** Request number k is queued at index j with a usable object, and will not be forgotten. */
  predicate IsQueued(s: System, t: State, j: nat, k: nat)
  {
    && j < |t.requests| && t.requests[j].info.id == s.Id(k)
    && t.requests[j].cell < |t.cells| && Usable(s, t.cells[t.requests[j].cell])
    && if t.stopped then t.replying && j == 0 && t.Matched(s.guid)
       else t.replying && j == 0 ==> !t.Gone(s.guid)
  }

  /** A call of a running server is about to push request number k. */
  predicate IsInCall(s: System, t: State, c: nat, k: nat)
    requires k < 4
  {
    && !t.stopped && c < |t.calls| && t.calls[c].Holding? && t.calls[c].item.id == s.Id(k)
    && Exact(s.Own(k)).Some?
  }

  /** A running server has not taken request number k yet. */
  predicate IsUntaken(s: System, v: Peer, k: nat)
    requires k < 4
  {
    !v.app.stopped && v.taken <= k && Exact(s.Own(k)).Some?
  }

  predicate CanServe(s: System, v: Peer, k: nat)
    requires k < 4
  {
    || (exists j :: 0 <= j < |v.app.requests| && IsQueued(s, v.app, j, k))
    || (exists c :: 0 <= c < |v.app.calls| && IsInCall(s, v.app, c, k))
    || IsUntaken(s, v, k)
  }

  /** Request number k has been answered, or its reply is on the way. */
  predicate HasReply(s: System, k: nat)
  {
    HasMark(s, k) || Written(s, k)
  }

  /** Request number k has been answered, or its reply is on the way, or some server can write one. */
  predicate Answerable(s: System, k: nat)
    requires k < 4
  {
    HasReply(s, k) || exists i :: 0 <= i < |s.servers| && CanServe(s, s.servers[i], k)
  }

  // ---------- What cannot be answered stays so ----------

  predicate SameNames(s: System, s': System)
  {
    s'.clientId == s.clientId && s'.guid == s.guid && s'.writer == s.writer && s'.x == s.x && s'.y == s.y
  }

  lemma SameServe(s: System, s': System, v: Peer, k: nat)
    requires k < 4 && SameNames(s, s')
    ensures CanServe(s', v, k) <==> CanServe(s, v, k)
  {
    assert forall j :: IsQueued(s', v.app, j, k) <==> IsQueued(s, v.app, j, k);
    assert forall c :: IsInCall(s', v.app, c, k) <==> IsInCall(s, v.app, c, k);
  }

  /** Where a queued request was before an event. */
  lemma QueuedBefore(s: System, v: Peer, e: Event, j: nat, k: nat)
    requires k < 4 && ServerInv(s, v) && Allowed(v.app, e) && Spares(v.app, e)
    requires IsQueued(s, Apply(v.app, e), j, k)
    ensures CanServe(s, v, k)
  {
    var t := v.app;
    if e.Queued? && j == |t.requests| {
      assert InHand(s, v.taken, t, e.entry.cell);
      assert IsInCall(s, t, e.entry.cell, k);
    } else if IsIteration(e) {
      var i := if e.Requeued? && j == |t.requests| - 1 then 0 else j + 1;
      assert Tied(s, v.taken, t.requests[i].info, t.cells[t.requests[i].cell]);
      assert IsQueued(s, t, i, k);
    } else {
      assert IsQueued(s, t, j, k);
    }
  }

  lemma InCallBefore(s: System, v: Peer, e: Event, c: nat, k: nat)
    requires k < 4 && ServerInv(s, v) && s.writer != UNKNOWN_WRITER && Allowed(v.app, e)
    requires e.Took? ==> IsNext(s, v, e.payload, e.info) || IsForeign(s, e.payload, e.info) || e.info.None?
    requires IsInCall(s, Apply(v.app, e), c, k)
    ensures CanServe(s, v, k)
  {
    if !(e.Took? && e.cell == c) {
      assert IsInCall(s, v.app, c, k);
    }
  }

  lemma ServeBefore(s: System, v: Peer, e: Event, k: nat)
    requires k < 4 && ServerInv(s, v) && s.writer != UNKNOWN_WRITER && Allowed(v.app, e) && Spares(v.app, e)
    requires e.Took? ==> IsNext(s, v, e.payload, e.info) || IsForeign(s, e.payload, e.info) || e.info.None?
    requires CanServe(s, Served(s, v, e), k)
    ensures CanServe(s, v, k)
  {
    var w := Served(s, v, e);
    if j :| 0 <= j < |w.app.requests| && IsQueued(s, w.app, j, k) {
      QueuedBefore(s, v, e, j, k);
    } else if c :| 0 <= c < |w.app.calls| && IsInCall(s, w.app, c, k) {
      InCallBefore(s, v, e, c, k);
    }
  }

  /** What is answered was queued. */
  lemma AnsweredWasQueued(s: System, v: Peer, e: Event, k: nat)
    requires k < 4 && ServerInv(s, v) && Allowed(v.app, e) && e.Answered?
    requires e.reply.clientId == s.clientId && e.reply.related == s.Id(k)
    ensures CanServe(s, v, k)
  {
    assert Tied(s, v.taken, v.app.requests[0].info, v.app.cells[v.app.requests[0].cell]);
    assert IsQueued(s, v.app, 0, k);
  }

  lemma UnreadBefore(s: System, v: Peer, e: Event, k: nat)
    requires k < 4 && ServerInv(s, v) && Allowed(v.app, e)
    requires Unread(Served(s, v, e), s.Id(k))
    ensures Unread(v, s.Id(k)) || CanServe(s, v, k)
  {
    var w := Served(s, v, e);
    var j :| 0 <= j < |w.unread| && w.unread[j].related == s.Id(k);
    if j < |v.unread| {
      assert v.unread[j].related == s.Id(k);
    } else {
      AnsweredWasQueued(s, v, e, k);
    }
  }

  /** What the client holds or has marked after an action. */
  lemma ClientBefore(s: System, a: Action, k: nat)
    requires MayAct(s.client, a)
    requires var d := Act(s.client, a);
             HeldByClient(d, s.Id(k)) || (s.Id(k) in d.status && d.status[s.Id(k)])
    ensures HeldByClient(s.client, s.Id(k)) || HasMark(s, k) || (a.Take? && a.sample.related == s.Id(k))
  {
    var c, d := s.client, Act(s.client, a);
    if HeldByClient(d, s.Id(k)) {
      var i :| 0 <= i < |d.calls| && d.calls[i].Holding? && d.calls[i].item.related == s.Id(k);
      if !a.Take? {
        assert c.calls[i] == d.calls[i];
      } else if i != a.c {
        assert c.calls[i] == d.calls[i];
      }
    } else if a.Mark? {
      assert c.calls[a.c].Holding?;
    }
  }

  /** A reply that is answered or on the way after a step was so before, or a server wrote it. */
  lemma ReplyBefore(s: System, step: Step, k: nat)
    requires k < 4 && Inv(s) && Enabled(s, step) && HasReply(Next(s, step), k)
    ensures HasReply(s, k) || (step.Serves? && CanServe(s, s.servers[step.i], k))
  {
    var s' := Next(s, step);
    if HasMark(s', k) || HeldByClient(s'.client, s'.Id(k)) {
      if ActionOf(s, step).Some? {
        ClientBefore(s, ActionOf(s, step).value, k);
      }
      assert step.Receives? && s.servers[step.i].unread[0].related == s.Id(k) ==> Unread(s.servers[step.i], s.Id(k));
    } else {
      var i :| 0 <= i < |s'.servers| && Unread(s'.servers[i], s'.Id(k));
      if step.Serves? && step.i == i {
        UnreadBefore(s, s.servers[i], step.e, k);
      } else {
        var j :| 0 <= j < |s'.servers[i].unread| && s'.servers[i].unread[j].related == s.Id(k);
        var n := if step.Receives? && step.i == i then j + 1 else j;
        assert s.servers[i].unread[n].related == s.Id(k);
      }
    }
  }

  lemma AnswerableBefore(s: System, step: Step, k: nat)
    requires k < 4 && Inv(s) && Enabled(s, step) && StepSpares(s, step)
    requires Answerable(Next(s, step), k)
    ensures Answerable(s, k)
  {
    var s' := Next(s, step);
    if HasReply(s', k) {
      ReplyBefore(s, step, k);
    } else {
      var i :| 0 <= i < |s'.servers| && CanServe(s', s'.servers[i], k);
      SameServe(s, s', s'.servers[i], k);
      if step.Serves? && step.i == i {
        ServeBefore(s, s.servers[i], step.e, k);
      } else {
        SamePeer(s, s.servers[i], s'.servers[i], k);
      }
    }
  }

  lemma SamePeer(s: System, v: Peer, w: Peer, k: nat)
    requires k < 4 && w.app == v.app && w.taken == v.taken
    ensures CanServe(s, w, k) <==> CanServe(s, v, k)
  {
  }

  lemma {:induction false} CompletedWasAnswerable(s: System, steps: seq<Step>, k: nat)
    requires k < 4 && Inv(s) && Runs(true, s, steps) && Answerable(Final(true, s, steps), k)
    ensures Answerable(s, k)
    decreases |steps|
  {
    if steps != [] {
      StepKeepsInv(s, steps[0]);
      CompletedWasAnswerable(Next(s, steps[0]), steps[1..], k);
      AnswerableBefore(s, steps[0], k);
    }
  }

  // ---------- Steps after which everything can still be answered ----------

  /** The step forgets and overwrites no request of the client. */
  predicate Careful(s: System, step: Step)
  {
    match step
    case Acts(a) => !a.Take? && !a.StopClient? && (a.Send? ==> a.outcome.ok)
    case Receives(_, _, usable) => usable
    case Serves(i, e) =>
      && i < |s.servers| && Spares(s.servers[i].app, e)
      && !e.Stopped? && !e.ClientLost?
      && (e.Took? ==> e.info.Some?)
      && (e.Committed? ==> !s.servers[i].app.Gone(s.guid))
      && (e.Requeued? ==> !s.servers[i].app.stopped)
    case Loses(_) => false
  }

  lemma QueuedAfter(s: System, v: Peer, e: Event, j: nat, k: nat)
    requires k < 4 && ServerInv(s, v) && Allowed(v.app, e) && Spares(v.app, e) && IsQueued(s, v.app, j, k)
    requires !e.Stopped? && !e.ClientLost? && (e.Committed? ==> !v.app.Gone(s.guid))
    requires e.Requeued? ==> !v.app.stopped
    ensures CanServe(s, Served(s, v, e), k) || Unread(Served(s, v, e), s.Id(k))
  {
    var t, u, w := v.app, Apply(v.app, e), Served(s, v, e);
    assert Tied(s, v.taken, t.requests[j].info, t.cells[t.requests[j].cell]);
    if IsIteration(e) {
      if j > 0 {
        assert IsQueued(s, u, j - 1, k);
      } else if e.Requeued? {
        assert IsQueued(s, u, |u.requests| - 1, k);
      } else {
        assert e.Answered? && w.unread[|v.unread|] == e.reply;
      }
    } else {
      assert IsQueued(s, u, j, k);
    }
  }

  lemma InCallAfter(s: System, v: Peer, e: Event, c: nat, k: nat)
    requires k < 4 && ServerInv(s, v) && s.writer != UNKNOWN_WRITER && Allowed(v.app, e) && IsInCall(s, v.app, c, k)
    requires !e.Stopped?
    ensures CanServe(s, Served(s, v, e), k)
  {
    var t, u := v.app, Apply(v.app, e);
    assert InHand(s, v.taken, t, c);
    if e.Queued? && e.entry.cell == c {
      assert IsQueued(s, u, |t.requests|, k);
    } else {
      assert IsInCall(s, u, c, k);
    }
  }

  lemma UntakenAfter(s: System, v: Peer, e: Event, k: nat)
    requires k < 4 && ServerInv(s, v) && Allowed(v.app, e) && IsUntaken(s, v, k)
    requires !e.Stopped? && (e.Took? ==> e.info.Some?)
    ensures CanServe(s, Served(s, v, e), k)
  {
    var w := Served(s, v, e);
    if e.Took? && IsNext(s, v, e.payload, e.info) && v.taken == k {
      assert IsInCall(s, w.app, e.cell, k);
    } else {
      assert IsUntaken(s, w, k);
    }
  }

  lemma ServeAfter(s: System, i: nat, e: Event, k: nat)
    requires k < 4 && Inv(s) && Enabled(s, Serves(i, e)) && Careful(s, Serves(i, e))
    requires CanServe(s, s.servers[i], k)
    ensures CanServe(s, Served(s, s.servers[i], e), k) || Unread(Served(s, s.servers[i], e), s.Id(k))
  {
    var v := s.servers[i];
    if j :| 0 <= j < |v.app.requests| && IsQueued(s, v.app, j, k) {
      QueuedAfter(s, v, e, j, k);
    } else if c :| 0 <= c < |v.app.calls| && IsInCall(s, v.app, c, k) {
      InCallAfter(s, v, e, c, k);
    } else {
      UntakenAfter(s, v, e, k);
    }
  }

  /** A careful action of the client keeps its marks, and marks what it held. */
  lemma ClientAfter(s: System, a: Action, k: nat)
    requires k < 4 && Inv(s) && MayAct(s.client, a) && !a.StopClient?
    requires a.Send? ==> a.outcome.ok && a.outcome.id == s.Id(s.sent)
    requires HasMark(s, k) || HeldByClient(s.client, s.Id(k))
    ensures var d := Act(s.client, a);
            HeldByClient(d, s.Id(k)) || (s.Id(k) in d.status && d.status[s.Id(k)])
  {
    var c, d := s.client, Act(s.client, a);
    if HasMark(s, k) {
      assert a.Send? ==> s.Id(s.sent) !in c.status;
    } else {
      HeldAfter(s, a, k);
    }
  }

  lemma HeldAfter(s: System, a: Action, k: nat)
    requires k < 4 && Inv(s) && MayAct(s.client, a) && HeldByClient(s.client, s.Id(k))
    ensures var d := Act(s.client, a);
            HeldByClient(d, s.Id(k)) || (s.Id(k) in d.status && d.status[s.Id(k)])
  {
    var c, d := s.client, Act(s.client, a);
    var i :| 0 <= i < |c.calls| && c.calls[i].Holding? && c.calls[i].item.related == s.Id(k);
    if a == Mark(i) {
      assert Later(s, c.calls[i].item.related, c.calls[i].item.result);
      assert c.ids[k] in c.status;
    } else {
      assert d.calls[i] == c.calls[i];
    }
  }

  lemma UnreadAfter(s: System, step: Step, i: nat, k: nat)
    requires k < 4 && Inv(s) && Enabled(s, step) && Careful(s, step)
    requires i < |s.servers| && Unread(s.servers[i], s.Id(k))
    ensures Written(Next(s, step), k)
  {
    var v, s' := s.servers[i], Next(s, step);
    var j :| 0 <= j < |v.unread| && v.unread[j].related == s.Id(k);
    if step.Receives? && step.i == i {
      if j == 0 {
        assert s'.client.calls[step.c].Holding? && s'.client.calls[step.c].item.related == s.Id(k);
      } else {
        assert s'.servers[i].unread[j - 1] == v.unread[j];
        assert Unread(s'.servers[i], s.Id(k));
      }
    } else {
      assert s'.servers[i].unread[j] == v.unread[j];
      assert Unread(s'.servers[i], s.Id(k));
    }
  }

  lemma ReplyAfter(s: System, step: Step, k: nat)
    requires k < 4 && Inv(s) && Enabled(s, step) && Careful(s, step) && HasReply(s, k)
    ensures HasReply(Next(s, step), k)
  {
    if HasMark(s, k) || HeldByClient(s.client, s.Id(k)) {
      if ActionOf(s, step).Some? {
        ClientAfter(s, ActionOf(s, step).value, k);
      }
    } else {
      var i :| 0 <= i < |s.servers| && Unread(s.servers[i], s.Id(k));
      UnreadAfter(s, step, i, k);
    }
  }

  lemma AnswerableAfter(s: System, step: Step, k: nat)
    requires k < 4 && Inv(s) && Enabled(s, step) && Careful(s, step) && Answerable(s, k)
    ensures Answerable(Next(s, step), k)
  {
    var s' := Next(s, step);
    if HasReply(s, k) {
      ReplyAfter(s, step, k);
    } else {
      var i :| 0 <= i < |s.servers| && CanServe(s, s.servers[i], k);
      if step.Serves? && step.i == i {
        ServeAfter(s, i, step.e, k);
        assert Unread(s'.servers[i], s'.Id(k)) || CanServe(s, s'.servers[i], k);
      } else {
        SamePeer(s, s.servers[i], s'.servers[i], k);
      }
      SameServe(s, s', s'.servers[i], k);
    }
  }

  /** Everything that could be answered still can. */
  predicate Keeps(s: System, t: System)
  {
    && SameNames(s, t) && s.sent <= t.sent && |t.servers| == |s.servers|
    && (forall k :: 0 <= k < 4 && Answerable(s, k) ==> Answerable(t, k))
    && (forall k :: 0 <= k < 4 && HasReply(s, k) ==> HasReply(t, k))
  }

  /** The steps are sparing and lead the system carefully from s to t. */
  ghost predicate Goes(s: System, steps: seq<Step>, t: System)
  {
    Runs(true, s, steps) && Final(true, s, steps) == t && Inv(t) && Keeps(s, t)
  }

  lemma GoesOn(s: System, steps: seq<Step>, t: System, more: seq<Step>, u: System)
    requires Goes(s, steps, t) && Goes(t, more, u)
    ensures Goes(s, steps + more, u)
  {
    Histories.Concat(Behaviour(true), s, steps, more);
  }

  lemma StepOn(s: System, steps: seq<Step>, t: System, step: Step) returns (more: seq<Step>, u: System)
    requires Goes(s, steps, t) && Enabled(t, step) && Careful(t, step)
    ensures u == Next(t, step) && more == steps + [step] && Goes(s, more, u)
  {
    more, u := steps + [step], Next(t, step);
    Histories.Extend(Behaviour(true), s, steps, step);
    StepKeepsInv(t, step);
    NextGrows(t, step);
    forall k | 0 <= k < 4 && Answerable(s, k)
      ensures Answerable(u, k)
    {
      AnswerableAfter(t, step, k);
    }
    forall k | 0 <= k < 4 && HasReply(s, k)
      ensures HasReply(u, k)
    {
      ReplyAfter(t, step, k);
    }
  }

  // ---------- A server writes a reply ----------

  /** The reply thread of a running server is between two iterations, and the client is matched. */
  predicate Serving(s: System, t: State)
  {
    !t.stopped && !t.replying && t.Matched(s.guid)
  }

  /** Only server i has moved. */
  predicate OnlyPeer(s: System, i: nat, t: System)
  {
    i < |s.servers| && |t.servers| == |s.servers| && t == s.(servers := s.servers[i := t.servers[i]])
  }

  lemma ServeOn(s: System, steps: seq<Step>, t: System, i: nat, e: Event) returns (more: seq<Step>, u: System)
    requires Goes(s, steps, t) && OnlyPeer(s, i, t)
    requires Enabled(t, Serves(i, e)) && Careful(t, Serves(i, e))
    ensures Goes(s, more, u) && OnlyPeer(s, i, u) && u.servers[i] == Served(t, t.servers[i], e)
  {
    more, u := StepOn(s, steps, t, Serves(i, e));
  }

  /** A call of on_data_available begins and finds the stop flag clear. */
  lemma OpenCallOf(s: System, i: nat) returns (steps: seq<Step>, t: System)
    requires Inv(s) && i < |s.servers| && !s.servers[i].app.stopped
    ensures Goes(s, steps, t) && OnlyPeer(s, i, t)
    ensures var a := s.servers[i].app;
            t.servers[i] == s.servers[i].(app := a.(calls := a.calls + [AtTake], cells := a.cells + [EMPTY_REQUEST]))
  {
    steps, t := [], s;
    steps, t := ServeOn(s, steps, t, i, Entered);
    steps, t := ServeOn(s, steps, t, i, Passed(|s.servers[i].app.cells|));
  }

  /** A call past its test takes the next request of the client, and queues it. */
  lemma TakeInto(s: System, i: nat, cell: nat) returns (steps: seq<Step>, t: System)
    requires Inv(s) && i < |s.servers| && Serving(s, s.servers[i].app) && s.servers[i].taken < s.sent
    requires s.servers[i].app.Stands(cell, AtTake) && Spared(s.servers[i].app, cell)
    ensures Goes(s, steps, t) && OnlyPeer(s, i, t) && Serving(t, t.servers[i].app)
    ensures t.servers[i].taken == s.servers[i].taken + 1
    ensures var k := s.servers[i].taken;
            Exact(s.Own(k)).Some? ==> IsQueued(t, t.servers[i].app, |s.servers[i].app.requests|, k)
  {
    var v := s.servers[i];
    var info := Info(s.guid, s.Id(v.taken));
    steps, t := [], s;
    steps, t := ServeOn(s, steps, t, i, Took(cell, s.Own(v.taken), Some(info)));
    steps, t := ServeOn(s, steps, t, i, Queued(Entry(info, cell)));
  }

  /** No queued request points to the object of the call. */
  predicate Spared(t: State, cell: nat)
  {
    forall k :: 0 <= k < |t.requests| ==> t.requests[k].cell != cell
  }

  /** The server takes the next request of the client in a call of its own, and queues it. */
  lemma TakeNext(s: System, i: nat) returns (steps: seq<Step>, t: System)
    requires Inv(s) && i < |s.servers| && Serving(s, s.servers[i].app) && s.servers[i].taken < s.sent
    ensures Goes(s, steps, t) && OnlyPeer(s, i, t) && Serving(t, t.servers[i].app)
    ensures t.servers[i].taken == s.servers[i].taken + 1
    ensures var k := s.servers[i].taken;
            Exact(s.Own(k)).Some? ==> IsQueued(t, t.servers[i].app, |s.servers[i].app.requests|, k)
  {
    steps, t := OpenCallOf(s, i);
    var more, u := TakeInto(t, i, |s.servers[i].app.cells|);
    GoesOn(s, steps, t, more, u);
    steps, t := steps + more, u;
  }

  lemma {:induction false} TakeUpTo(s: System, i: nat, k: nat) returns (steps: seq<Step>, t: System, j: nat)
    requires Inv(s) && i < |s.servers| && Serving(s, s.servers[i].app)
    requires k < s.sent && IsUntaken(s, s.servers[i], k)
    ensures Goes(s, steps, t) && OnlyPeer(s, i, t) && Serving(t, t.servers[i].app)
    ensures IsQueued(t, t.servers[i].app, j, k)
    decreases k - s.servers[i].taken
  {
    steps, t := TakeNext(s, i);
    j := |s.servers[i].app.requests|;
    if s.servers[i].taken < k {
      var more, u, n := TakeUpTo(t, i, k);
      GoesOn(s, steps, t, more, u);
      steps, t, j := steps + more, u, n;
    }
  }

  /** Request number k gets into the queue. */
  lemma ToQueue(s: System, i: nat, k: nat) returns (steps: seq<Step>, t: System, j: nat)
    requires Inv(s) && i < |s.servers| && Serving(s, s.servers[i].app)
    requires k < s.sent && CanServe(s, s.servers[i], k)
    ensures Goes(s, steps, t) && OnlyPeer(s, i, t) && Serving(t, t.servers[i].app)
    ensures IsQueued(t, t.servers[i].app, j, k)
  {
    var v := s.servers[i].app;
    steps, t := [], s;
    if n :| 0 <= n < |v.requests| && IsQueued(s, v, n, k) {
      j := n;
    } else if c :| 0 <= c < |v.calls| && IsInCall(s, v, c, k) {
      assert InHand(s, s.servers[i].taken, v, c);
      steps, t := ServeOn(s, steps, t, i, Queued(Entry(v.calls[c].item, c)));
      j := |v.requests|;
    } else {
      steps, t, j := TakeUpTo(s, i, k);
    }
  }

  /** One iteration of the reply thread. */
  lemma Iterate(s: System, i: nat) returns (steps: seq<Step>, t: System, e: Event)
    requires Inv(s) && i < |s.servers| && Serving(s, s.servers[i].app) && s.servers[i].app.requests != []
    ensures Goes(s, steps, t) && OnlyPeer(s, i, t) && Serving(t, t.servers[i].app)
    ensures var u := Apply(s.servers[i].app, Committed);
            && IsIteration(e) && Allowed(u, e) && t.servers[i] == Served(s, s.servers[i].(app := u), e)
            && (e.Requeued? ==> !u.Matched(u.requests[0].info.client))
  {
    steps, t := [], s;
    steps, t := ServeOn(s, steps, t, i, Committed);
    e := SomeIteration(t.servers[i].app);
    steps, t := ServeOn(s, steps, t, i, e);
  }

  /** The iteration answers request number k if it is the first one, and brings it closer otherwise. */
  lemma Closer(s: System, v: Peer, e: Event, j: nat, k: nat)
    requires k < 4 && ServerInv(s, v) && Serving(s, v.app) && IsQueued(s, v.app, j, k)
    requires var u := Apply(v.app, Committed);
             IsIteration(e) && Allowed(u, e) && (e.Requeued? ==> !u.Matched(u.requests[0].info.client))
    ensures var w := Served(s, v.(app := Apply(v.app, Committed)), e);
            if j == 0 then Unread(w, s.Id(k)) else IsQueued(s, w.app, j - 1, k)
  {
    var w := Served(s, v.(app := Apply(v.app, Committed)), e);
    if j == 0 {
      assert Tied(s, v.taken, v.app.requests[0].info, v.app.cells[v.app.requests[0].cell]);
      assert e.Answered? && w.unread[|v.unread|].related == s.Id(k);
    }
  }

  /** Iterations bring request number k to the front and answer it. */
  lemma {:induction false} Answer(s: System, i: nat, j: nat, k: nat) returns (steps: seq<Step>, t: System)
    requires Inv(s) && k < 4 && i < |s.servers| && Serving(s, s.servers[i].app) && IsQueued(s, s.servers[i].app, j, k)
    ensures Goes(s, steps, t) && OnlyPeer(s, i, t) && Unread(t.servers[i], s.Id(k))
    decreases j
  {
    var e;
    steps, t, e := Iterate(s, i);
    Closer(s, s.servers[i], e, j, k);
    if j > 0 {
      assert IsQueued(t, t.servers[i].app, j - 1, k);
      var more, u := Answer(t, i, j - 1, k);
      GoesOn(s, steps, t, more, u);
      steps, t := steps + more, u;
    }
  }

  /** A stopped server completes its iteration. */
  lemma LastReply(s: System, i: nat, k: nat) returns (steps: seq<Step>, t: System)
    requires Inv(s) && k < 4 && i < |s.servers| && s.servers[i].app.stopped && CanServe(s, s.servers[i], k)
    ensures Goes(s, steps, t) && OnlyPeer(s, i, t) && Unread(t.servers[i], s.Id(k))
  {
    var v := s.servers[i];
    assert IsQueued(s, v.app, 0, k);
    assert Tied(s, v.taken, v.app.requests[0].info, v.app.cells[v.app.requests[0].cell]);
    var e := SomeIteration(v.app);
    steps, t := ServeOn(s, [], s, i, e);
    assert t.servers[i].unread[|v.unread|].related == s.Id(k);
  }

  /** A server that can write a reply to request number k writes it. */
  lemma WriteReply(s: System, i: nat, k: nat) returns (steps: seq<Step>, t: System)
    requires Inv(s) && k < s.sent && i < |s.servers| && CanServe(s, s.servers[i], k)
    ensures Goes(s, steps, t) && OnlyPeer(s, i, t) && Unread(t.servers[i], s.Id(k))
  {
    if s.servers[i].app.stopped {
      steps, t := LastReply(s, i, k);
    } else {
      steps, t := MakeServing(s, i, k);
      if !Unread(t.servers[i], s.Id(k)) {
        var more, u := QueueAndAnswer(t, i, k);
        GoesOn(s, steps, t, more, u);
        steps, t := steps + more, u;
      }
    }
  }

  lemma QueueAndAnswer(s: System, i: nat, k: nat) returns (steps: seq<Step>, t: System)
    requires Inv(s) && i < |s.servers| && Serving(s, s.servers[i].app)
    requires k < s.sent && CanServe(s, s.servers[i], k)
    ensures Goes(s, steps, t) && OnlyPeer(s, i, t) && Unread(t.servers[i], s.Id(k))
  {
    var j;
    steps, t, j := ToQueue(s, i, k);
    var more, u := Answer(t, i, j, k);
    GoesOn(s, steps, t, more, u);
    steps, t := steps + more, u;
  }

  /** A running server finishes its iteration, and the client gets matched. */
  lemma MakeServing(s: System, i: nat, k: nat) returns (steps: seq<Step>, t: System)
    requires Inv(s) && k < 4 && i < |s.servers| && !s.servers[i].app.stopped && CanServe(s, s.servers[i], k)
    ensures Goes(s, steps, t) && OnlyPeer(s, i, t) && Serving(t, t.servers[i].app)
    ensures CanServe(t, t.servers[i], k) || Unread(t.servers[i], s.Id(k))
  {
    steps, t := [], s;
    if s.servers[i].app.replying {
      var e := SomeIteration(s.servers[i].app);
      steps, t := ServeKeeping(s, steps, t, i, e, k);
    }
    var more, u := MakeMatched(t, i, k);
    GoesOn(s, steps, t, more, u);
    steps, t := steps + more, u;
  }

  lemma MakeMatched(s: System, i: nat, k: nat) returns (steps: seq<Step>, t: System)
    requires Inv(s) && k < 4 && i < |s.servers| && !s.servers[i].app.stopped && !s.servers[i].app.replying
    requires CanServe(s, s.servers[i], k) || Unread(s.servers[i], s.Id(k))
    ensures Goes(s, steps, t) && OnlyPeer(s, i, t) && Serving(t, t.servers[i].app)
    ensures CanServe(t, t.servers[i], k) || Unread(t.servers[i], s.Id(k))
  {
    steps, t := ServeKeeping(s, [], s, i, WriterChanged(s.guid, true), k);
    steps, t := ServeKeeping(s, steps, t, i, ReaderChanged(s.guid, true), k);
  }

  lemma ServeKeeping(s: System, steps: seq<Step>, t: System, i: nat, e: Event, k: nat)
      returns (more: seq<Step>, u: System)
    requires Goes(s, steps, t) && OnlyPeer(s, i, t) && k < 4
    requires Enabled(t, Serves(i, e)) && Careful(t, Serves(i, e))
    requires CanServe(t, t.servers[i], k) || Unread(t.servers[i], s.Id(k))
    ensures Goes(s, more, u) && OnlyPeer(s, i, u) && u.servers[i] == Served(t, t.servers[i], e)
    ensures CanServe(u, u.servers[i], k) || Unread(u.servers[i], s.Id(k))
  {
    more, u := ServeOn(s, steps, t, i, e);
    if Unread(t.servers[i], s.Id(k)) {
      var j :| 0 <= j < |t.servers[i].unread| && t.servers[i].unread[j].related == s.Id(k);
      assert u.servers[i].unread[j].related == s.Id(k);
    } else {
      ServeAfter(t, i, e, k);
      SameServe(t, u, u.servers[i], k);
    }
  }

  // ---------- The client takes the replies ----------

  /** The client waits for replies. */
  ghost predicate Waiting(s: System)
  {
    Inv(s) && !s.client.stopped && s.client.phase == AwaitReplies
  }

  function Missing(s: System): set<nat>
  {
    set k: nat | k < 4 && !HasMark(s, k)
  }

  lemma ActOn(s: System, steps: seq<Step>, t: System, a: Action) returns (more: seq<Step>, u: System)
    requires Goes(s, steps, t) && Enabled(t, Acts(a)) && Careful(t, Acts(a))
    ensures Goes(s, more, u) && u == Next(t, Acts(a))
  {
    more, u := StepOn(s, steps, t, Acts(a));
  }

  /** What marking a reply that the client holds does. */
  lemma MarkingHelps(s: System, c: nat)
    requires Waiting(s) && c < |s.client.calls| && s.client.calls[c].Holding?
    ensures var t := Next(s, Acts(Mark(c)));
      && t.client.stopped == t.client.byCallback && t.client.phase == AwaitReplies
      && Missing(t) <= Missing(s)
      && forall k :: k in Missing(s) && s.client.calls[c].item.related == s.Id(k) ==> k !in Missing(t)
  {
    var sample := s.client.calls[c].item;
    assert sample.usable && Later(s, sample.related, sample.result);
    forall k | k in Missing(s) && sample.related == s.Id(k)
      ensures s.Id(k) in s.client.status
    {
      assert s.client.ids[k] in s.client.status;
    }
  }

  lemma MarkHeld(s: System, c: nat) returns (steps: seq<Step>, t: System)
    requires Waiting(s) && c < |s.client.calls| && s.client.calls[c].Holding?
    ensures Goes(s, steps, t) && t == Next(s, Acts(Mark(c))) && (t.client.byCallback || Waiting(t))
    ensures Missing(t) <= Missing(s)
    ensures forall k :: k in Missing(s) && s.client.calls[c].item.related == s.Id(k) ==> k !in Missing(t)
  {
    MarkingHelps(s, c);
    steps, t := ActOn(s, [], s, Mark(c));
  }

  /** A call of on_data_available of the client begins, finds the stop flag clear, and takes the next
      reply of a server. */
  lemma HoldNext(s: System, i: nat) returns (steps: seq<Step>, t: System)
    requires Waiting(s) && i < |s.servers| && s.servers[i].unread != []
    ensures Goes(s, steps, t) && Waiting(t) && t.client.status == s.client.status && t.writer == s.writer
    ensures t.client.reported == s.client.reported
    ensures t.client.calls == s.client.calls + [Holding(AsSample(s.servers[i].unread[0], true))]
    ensures t.servers == s.servers[i := s.servers[i].(unread := s.servers[i].unread[1..])]
  {
    steps, t := OpenReplyCall(s);
    steps, t := StepOn(s, steps, t, Receives(i, |s.client.calls|, true));
  }

  lemma OpenReplyCall(s: System) returns (steps: seq<Step>, t: System)
    requires Waiting(s)
    ensures Goes(s, steps, t) && t == s.(client := s.client.(calls := s.client.calls + [AtTake]))
  {
    steps, t := ActOn(s, [], s, OpenCall);
    steps, t := ActOn(s, steps, t, PassTest(|s.client.calls|));
  }

  /** The client takes the next reply of a server, and marks it. */
  lemma TakeReply(s: System, i: nat) returns (steps: seq<Step>, t: System)
    requires Waiting(s) && i < |s.servers| && s.servers[i].unread != []
    ensures Goes(s, steps, t) && (t.client.byCallback || Waiting(t))
    ensures Missing(t) <= Missing(s)
    ensures |t.servers| == |s.servers| && t.servers[i].unread == s.servers[i].unread[1..] && t.writer == s.writer
    ensures var id := s.servers[i].unread[0].related;
            forall k :: k in Missing(s) && id == s.Id(k) ==> k !in Missing(t)
  {
    steps, t := HoldNext(s, i);
    assert Missing(t) == Missing(s);
    var more, u := MarkHeld(t, |s.client.calls|);
    GoesOn(s, steps, t, more, u);
    steps, t := steps + more, u;
  }

  /** The replies up to the one at index j are taken. */
  lemma {:induction false} TakeReplies(s: System, i: nat, j: nat, k: nat) returns (steps: seq<Step>, t: System)
    requires Waiting(s) && i < |s.servers| && j < |s.servers[i].unread|
    requires k in Missing(s) && s.servers[i].unread[j].related == s.Id(k)
    ensures Goes(s, steps, t) && (t.client.byCallback || (Waiting(t) && Missing(t) < Missing(s)))
    decreases j
  {
    steps, t := TakeReply(s, i);
    if !t.client.byCallback && k in Missing(t) {
      assert t.servers[i].unread[j - 1] == s.servers[i].unread[j];
      var more, u := TakeReplies(t, i, j - 1, k);
      GoesOn(s, steps, t, more, u);
      steps, t := steps + more, u;
    }
  }

  lemma HaveWritten(s: System, k: nat) returns (steps: seq<Step>, t: System, i: nat)
    requires Waiting(s) && k < 4 && Answerable(s, k) && !HasMark(s, k) && !HeldByClient(s.client, s.Id(k))
    ensures Goes(s, steps, t) && OnlyPeer(s, i, t) && Unread(t.servers[i], s.Id(k))
  {
    steps, t := [], s;
    if n :| 0 <= n < |s.servers| && Unread(s.servers[n], s.Id(k)) {
      i := n;
    } else {
      i :| 0 <= i < |s.servers| && CanServe(s, s.servers[i], k);
      steps, t := WriteReply(s, i, k);
    }
  }

  /** One of the missing replies reaches the client. */
  lemma OneMore(s: System, k: nat) returns (steps: seq<Step>, t: System)
    requires Waiting(s) && k in Missing(s) && Answerable(s, k)
    ensures Goes(s, steps, t) && (t.client.byCallback || (Waiting(t) && Missing(t) < Missing(s)))
  {
    steps, t := [], s;
    if HeldByClient(s.client, s.Id(k)) {
      var c :| 0 <= c < |s.client.calls| && s.client.calls[c].Holding? && s.client.calls[c].item.related == s.Id(k);
      steps, t := MarkHeld(s, c);
    } else {
      var i;
      steps, t, i := HaveWritten(s, k);
      var j :| 0 <= j < |t.servers[i].unread| && t.servers[i].unread[j].related == s.Id(k);
      assert Missing(t) == Missing(s);
      var more, u := TakeReplies(t, i, j, k);
      GoesOn(s, steps, t, more, u);
      steps, t := steps + more, u;
    }
  }

  lemma NoneMissing(s: System)
    requires Waiting(s)
    ensures Missing(s) != {}
  {
    if Missing(s) == {} {
      forall k: nat | k < 4
        ensures HasMark(s, k)
      {
        assert k !in Missing(s);
      }
      AllMarked(s);
    }
  }

  lemma AllMarked(s: System)
    requires IdsInv(s) && s.sent == 4 == |s.client.ids| && forall k: nat :: k < 4 ==> HasMark(s, k)
    ensures |s.client.status| == 4 && AllReplied(s.client.status)
  {
    var c := s.client;
    assert c.status.Keys == {s.Id(0), s.Id(1), s.Id(2), s.Id(3)};
    assert |c.status| == |c.status.Keys|;
    forall id | id in c.status
      ensures c.status[id]
    {
      var k :| 0 <= k < 4 && c.ids[k] == id;
      assert HasMark(s, k);
    }
  }

  lemma {:induction false} AllReplies(s: System) returns (steps: seq<Step>, t: System)
    requires Waiting(s) && forall k :: 0 <= k < 4 ==> Answerable(s, k)
    ensures Goes(s, steps, t) && t.client.byCallback
    decreases |Missing(s)|
  {
    NoneMissing(s);
    var k :| k in Missing(s);
    steps, t := OneMore(s, k);
    if !t.client.byCallback {
      Fewer(Missing(t), Missing(s));
      var more, u := AllReplies(t);
      GoesOn(s, steps, t, more, u);
      steps, t := steps + more, u;
    }
  }

  lemma Fewer(a: set<nat>, b: set<nat>)
    requires a < b
    ensures |a| < |b|
  {
    var x :| x in b && x !in a;
    assert b == a + {x} + (b - a - {x});
  }

  // ---------- The client sends what it has not sent yet ----------

  /** The client has neither stopped nor failed. */
  ghost predicate Active(s: System)
  {
    Inv(s) && !s.client.stopped && s.client.phase != Failed
  }

  /** The servers have not moved, and the client has reported nothing. */
  predicate OnlyClient(s: System, t: System)
  {
    SameNames(s, t) && t.servers == s.servers && t.client.reported == s.client.reported
  }

  lemma {:induction false} SendRest(s: System) returns (steps: seq<Step>, t: System)
    requires Active(s) && s.client.phase.Sending?
    ensures Goes(s, steps, t) && Waiting(t) && OnlyClient(s, t)
    decreases 4 - s.client.phase.n
  {
    steps, t := ActOn(s, [], s, Send(WriteOutcome(true, s.Id(s.sent))));
    if t.client.phase.Sending? {
      var more, u := SendRest(t);
      GoesOn(s, steps, t, more, u);
      steps, t := steps + more, u;
    }
  }

  /** The client is about to send its first request. */
  lemma ReachSending(s: System) returns (steps: seq<Step>, t: System)
    requires Active(s) && (s.client.phase == AwaitServer || s.client.phase == Settle)
    ensures Goes(s, steps, t) && Active(t) && t.client.phase.Sending? && OnlyClient(s, t)
  {
    steps, t := [], s;
    if s.client.phase == AwaitServer {
      steps, t := ActOn(s, steps, t, ReaderOfServer(1, true));
      steps, t := ActOn(s, steps, t, WriterOfServer(1, true));
      assert 1 in t.client.readers * t.client.writers;
      steps, t := ActOn(s, steps, t, FindServer);
    }
    steps, t := ActOn(s, steps, t, SettleOver);
  }

  lemma ReachWaiting(s: System) returns (steps: seq<Step>, t: System)
    requires Active(s)
    ensures Goes(s, steps, t) && Waiting(t) && OnlyClient(s, t)
  {
    steps, t := [], s;
    if s.client.phase == AwaitServer || s.client.phase == Settle {
      steps, t := ReachSending(s);
    }
    if t.client.phase.Sending? {
      var more, u := SendRest(t);
      GoesOn(s, steps, t, more, u);
      steps, t := steps + more, u;
    }
  }

  // ---------- The results ----------

  lemma Complete(s: System) returns (steps: seq<Step>)
    requires Active(s) && forall k :: 0 <= k < 4 ==> Answerable(s, k)
    ensures Runs(true, s, steps) && Final(true, s, steps).client.byCallback
  {
    var t;
    steps, t := ReachWaiting(s);
    var more, u := AllReplies(t);
    GoesOn(s, steps, t, more, u);
    steps := steps + more;
  }

  /** From every reachable state in which the client has neither stopped nor failed: further steps
      that overwrite no queued request make the reply callback stop the client if and only if each
      of its requests has been answered, or its reply is on the way, or some server holds it with a
      usable object, or a running server has not taken it yet and it has a value. */
  lemma CompletionReachableExactly(s: System, past: seq<Step>)
    requires Initial(s) && Runs(false, s, past)
    requires var t := Final(false, s, past); !t.client.stopped && t.client.phase != Failed
    ensures var t := Final(false, s, past);
            (exists steps :: Runs(true, t, steps) && Final(true, t, steps).client.byCallback) <==>
            (forall k :: 0 <= k < 4 ==> Answerable(t, k))
  {
    InitialInv(s);
    RunsKeepInv(false, s, past);
    var t := Final(false, s, past);
    if forall k :: 0 <= k < 4 ==> Answerable(t, k) {
      var steps := Complete(t);
    }
    if steps :| Runs(true, t, steps) && Final(true, t, steps).client.byCallback {
      AllWereAnswerable(t, steps);
    }
  }

  lemma AllWereAnswerable(s: System, steps: seq<Step>)
    requires Inv(s) && Runs(true, s, steps) && Final(true, s, steps).client.byCallback
    ensures forall k :: 0 <= k < 4 ==> Answerable(s, k)
  {
    RunsKeepInv(true, s, steps);
    var t := Final(true, s, steps);
    FourSent(t);
    forall k | 0 <= k < 4
      ensures Answerable(s, k)
    {
      assert t.client.ids[k] in t.client.status && HasMark(t, k);
      CompletedWasAnswerable(s, steps, k);
    }
  }

  /** With a server to talk to, some run lets the reply callback stop the client if and only if the
      divisor is not zero; and then a sparing run does. */
  lemma CompletesExactlyForNonzeroDivisor(s: System)
    requires Initial(s) && |s.servers| > 0
    ensures (exists steps :: Runs(false, s, steps) && Final(false, s, steps).client.byCallback) <==> s.y != 0
    ensures (exists steps :: Runs(true, s, steps) && Final(true, s, steps).client.byCallback) <==> s.y != 0
  {
    InitialInv(s);
    if s.y != 0 {
      forall k | 0 <= k < 4
        ensures Answerable(s, k)
      {
        DivisionHasValue(s.clientId, s.x, s.y);
        assert IsUntaken(s, s.servers[0], k);
      }
      var steps := Complete(s);
      SparingRuns(s, steps);
    } else {
      forall steps | Runs(false, s, steps)
        ensures !Final(false, s, steps).client.byCallback
      {
        DivisionByZeroNeverCompletes(s, steps);
      }
      forall steps | Runs(true, s, steps)
        ensures !Final(true, s, steps).client.byCallback
      {
        SparingRuns(s, steps);
      }
    }
  }
}
