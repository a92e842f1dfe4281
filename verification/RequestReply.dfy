/** One client, any number of servers and other clients, and DDS between them. A writer numbers its
    samples from 1; a reader hands out those of one writer in this order and each of them once,
    and it may do so at any time after the write. DDS passes to a client only replies that carry
    its client id (the content filter of the reply topic), and replies a client has not received
    are lost when the server clears its history. A run is sparing if no call of a server's
    on_data_available reads a sample into its request object while an earlier request of the call
    is still queued; so is every run in which each call takes one sample. */
module RequestReply {
  import Histories
  import opened Arithmetic
  import opened Options
  import opened Callbacks
  import opened Calculator
  import opened MatchTables
  import opened ServerApp
  import opened ServerRuns
  import opened ClientApp

  /** A server; how many requests of the client it has taken; and the replies it has written to
      the client that the client has not taken yet. */
  datatype Peer = Peer(app: State, taken: nat, unread: seq<Reply>)

  /** guid and writer: the client as it appears to the servers, and its request writer;
      sent: the number of its successful writes. */
  datatype System = System(
    clientId: string, guid: Guid, writer: Guid, x: int16, y: int16,
    client: Client,
    sent: nat,
    servers: seq<Peer>)
  {
    /** Request number k of the client, and the identity of its sample. */
    function Own(k: nat): Payload requires k < 4 { RequestOf(clientId, x, y, k) }
    function Id(k: nat): SampleId { SampleId(writer, k + 1) }
  }

  /** What stands in the identity of a write that failed. */
  const UNKNOWN_WRITER: Guid := 0

  datatype Step =
    | Acts(a: Action)                            // of the client
    | Receives(i: nat, c: nat, usable: bool)     // a call of the client takes the next reply of server i
    | Serves(i: nat, e: Event)                   // of server i
    | Loses(i: nat)                              // replies not received before their history was cleared

  predicate Initial(s: System)
  {
    && s.clientId != "" && s.writer != UNKNOWN_WRITER
    && s.client == NEW_CLIENT && s.sent == 0
    && forall i :: 0 <= i < |s.servers| ==> s.servers[i] == Peer(INITIAL, 0, [])
  }

  /** The sample is the next request of the client. */
  predicate IsNext(s: System, v: Peer, payload: Payload, info: Option<Info>)
  {
    && v.taken < s.sent && v.taken < 4 && payload == s.Own(v.taken)
    && (info.Some? ==> info.value == Info(s.guid, s.Id(v.taken)))
  }

  /** The sample comes from another writer. */
  predicate IsForeign(s: System, payload: Payload, info: Option<Info>)
  {
    && payload.clientId != s.clientId
    && (info.Some? ==> info.value.id.writer != s.writer && info.value.id.writer != UNKNOWN_WRITER)
  }

  /** A sample without data does not change the request object. */
  predicate IsEmpty(v: Peer, cell: nat, payload: Payload, info: Option<Info>)
  {
    info.None? && cell < |v.app.cells| && v.app.cells[cell] == payload
  }

  /** The reply sample that the client takes. */
  function AsSample(reply: Reply, usable: bool): ReplySample
  {
    ReplySample(reply.related, reply.result, usable)
  }

  predicate Enabled(s: System, step: Step)
  {
    match step
    case Acts(a) =>
      && MayAct(s.client, a)
      && (a.Send? ==> if a.outcome.ok then a.outcome.id == s.Id(s.sent)
                      else a.outcome.id.writer in {s.writer, UNKNOWN_WRITER})
      && (a.Take? ==> !a.sample.usable)
    case Receives(i, c, usable) =>
      && i < |s.servers| && s.servers[i].unread != []
      && MayAct(s.client, Take(c, AsSample(s.servers[i].unread[0], usable)))
    case Serves(i, e) =>
      && i < |s.servers| && Allowed(s.servers[i].app, e)
      && (e.Took? ==>
            || IsNext(s, s.servers[i], e.payload, e.info)
            || IsForeign(s, e.payload, e.info)
            || IsEmpty(s.servers[i], e.cell, e.payload, e.info))
    case Loses(i) => i < |s.servers| && s.servers[i].app.kept == []
  }

  function Next(s: System, step: Step): System
  {
    match step
    case Acts(a) => s.(client := Act(s.client, a), sent := if a.Send? && a.outcome.ok then s.sent + 1 else s.sent)
    case Receives(i, c, usable) =>
      if i < |s.servers| && s.servers[i].unread != [] then
        s.(client := Act(s.client, Take(c, AsSample(s.servers[i].unread[0], usable))),
           servers := s.servers[i := s.servers[i].(unread := s.servers[i].unread[1..])])
      else s
    case Serves(i, e) => if i < |s.servers| then s.(servers := s.servers[i := Served(s, s.servers[i], e)]) else s
    case Loses(i) => if i < |s.servers| then s.(servers := s.servers[i := s.servers[i].(unread := [])]) else s
  }

  function Served(s: System, v: Peer, e: Event): Peer
  {
    Peer(Apply(v.app, e),
         if e.Took? && IsNext(s, v, e.payload, e.info) then v.taken + 1 else v.taken,
         if e.Answered? && e.reply.clientId == s.clientId then v.unread + [e.reply] else v.unread)
  }

  /** No queued request loses its contents. */
  predicate Spares(t: State, e: Event)
  {
    e.Took? ==> forall k :: 0 <= k < |t.requests| ==> t.requests[k].cell != e.cell
  }

  predicate StepSpares(s: System, step: Step)
  {
    step.Serves? && step.i < |s.servers| ==> Spares(s.servers[step.i].app, step.e)
  }

  /** All runs, or the sparing ones only. */
  function Behaviour(sparing: bool): Histories.Machine<System, Step>
  {
    Histories.Machine((s: System, step: Step) => Enabled(s, step) && (sparing ==> StepSpares(s, step)), Next)
  }

  predicate Runs(sparing: bool, s: System, steps: seq<Step>)
  {
    Histories.Lawful(Behaviour(sparing), s, steps)
  }

  function Final(sparing: bool, s: System, steps: seq<Step>): System
  {
    Histories.After(Behaviour(sparing), s, steps)
  }

  // ---------- What every run keeps: the servers ----------

  /** The number of a request of the client. */
  function Number(p: Payload): nat
  {
    match p.operation
    case Addition => 0
    case Subtraction => 1
    case Multiplication => 2
    case Division => 3
    case Unknown(_) => 4
  }

  /** If it is a request of the client, it is one of those taken so far. */
  predicate Genuine(s: System, taken: nat, p: Payload)
  {
    p.clientId == s.clientId ==> Number(p) < taken && Number(p) < 4 && p == s.Own(Number(p))
  }

  /** If the entry is for a request of the client, its object holds no earlier request of the client. */
  predicate Tied(s: System, taken: nat, info: Info, p: Payload)
  {
    && info.id.writer != UNKNOWN_WRITER
    && (info.id.writer == s.writer ==>
          && info.client == s.guid && 1 <= info.id.number <= taken
          && (p.clientId == s.clientId ==> info.id.number - 1 <= Number(p)))
  }

  /** The reply to request number k carries the exact value of a request m >= k of the client. */
  ghost predicate Later(s: System, related: SampleId, result: int)
  {
    && related.writer != UNKNOWN_WRITER
    && (related.writer == s.writer ==>
          && 1 <= related.number <= s.sent
          && exists m :: related.number - 1 <= m < s.sent && m < 4 && HasValue(s, m, result))
  }

  /** The result of request number m of the client: sum, difference, product or quotient. */
  predicate HasValue(s: System, m: nat, result: int)
    requires m < 4
  {
    && (m == 0 ==> result == s.x as int + s.y as int)
    && (m == 1 ==> result == s.x as int - s.y as int)
    && (m == 2 ==> result == s.x as int * s.y as int)
    && (m == 3 ==> RoundsTowardZero(s.x as int, s.y as int, result))
  }

  lemma ValueIsExact(s: System, m: nat, result: int)
    requires m < 4
    ensures HasValue(s, m, result) <==> Exact(s.Own(m)) == Some(result)
  {
    ExactIsExplicit(s.Own(m));
    if m == 3 && HasValue(s, m, result) {
      RoundingIsUnique(s.x as int, s.y as int, result, Exact(s.Own(m)).value);
    }
  }

  ghost predicate ServerInv(s: System, v: Peer)
  {
    AppInv(s, v.taken, v.app) && UnreadInv(s, v.unread) && v.taken <= s.sent
  }

  ghost predicate AppInv(s: System, taken: nat, t: State)
  {
    && WellFormed(t)
    && (forall c :: 0 <= c < |t.cells| ==> Genuine(s, taken, t.cells[c]))
    && (forall k :: 0 <= k < |t.requests| ==> Tied(s, taken, t.requests[k].info, t.cells[t.requests[k].cell]))
    && (forall c :: 0 <= c < |t.calls| && t.calls[c].Holding? ==> InHand(s, taken, t, c))
  }

  ghost predicate UnreadInv(s: System, unread: seq<Reply>)
  {
    forall k :: 0 <= k < |unread| ==> Later(s, unread[k].related, unread[k].result)
  }

  /** The call is about to push a request, which its object holds. */
  predicate InHand(s: System, taken: nat, t: State, c: nat)
    requires c < |t.calls| && t.calls[c].Holding?
  {
    var info := t.calls[c].item;
    && c < |t.cells| && Tied(s, taken, info, t.cells[c])
    && (info.id.writer == s.writer ==> info.id.number <= 4 && t.cells[c] == s.Own(info.id.number - 1))
  }

  lemma TakeKeepsInv(s: System, v: Peer, e: Event)
    requires s.writer != UNKNOWN_WRITER && AppInv(s, v.taken, v.app) && e.Took? && Allowed(v.app, e)
    requires IsNext(s, v, e.payload, e.info) || IsForeign(s, e.payload, e.info) || IsEmpty(v, e.cell, e.payload, e.info)
    ensures AppInv(s, Served(s, v, e).taken, Apply(v.app, e))
  {
    var w := Served(s, v, e);
    forall c | 0 <= c < |w.app.calls| && w.app.calls[c].Holding?
      ensures InHand(s, w.taken, w.app, c)
    {
      assert c != e.cell ==> InHand(s, v.taken, v.app, c);
    }
  }

  lemma ServeKeepsInv(s: System, taken: nat, t: State, e: Event)
    requires s.clientId != "" && AppInv(s, taken, t) && !e.Took? && Allowed(t, e)
    ensures AppInv(s, taken, Apply(t, e))
  {
    var u := Apply(t, e);
    forall c | 0 <= c < |u.calls| && u.calls[c].Holding?
      ensures InHand(s, taken, u, c)
    {
      assert InHand(s, taken, t, c);
    }
    if e.Queued? {
      assert InHand(s, taken, t, e.entry.cell);
    }
  }

  lemma AnswerIsLater(s: System, taken: nat, t: State, e: Event)
    requires AppInv(s, taken, t) && taken <= s.sent && e.Answered? && Allowed(t, e) && e.reply.clientId == s.clientId
    ensures Later(s, e.reply.related, e.reply.result)
  {
    var p := t.cells[e.entry.cell];
    assert Tied(s, taken, t.requests[0].info, p) && Genuine(s, taken, p);
    ValueIsExact(s, Number(p), e.reply.result);
  }

  lemma WithoutFirst(s: System, v: Peer)
    requires ServerInv(s, v) && v.unread != []
    ensures ServerInv(s, v.(unread := v.unread[1..]))
  {
    forall k | 0 <= k < |v.unread[1..]|
      ensures Later(s, v.unread[1..][k].related, v.unread[1..][k].result)
    {
      assert v.unread[1..][k] == v.unread[k + 1];
    }
  }

  /** More requests of the client do not matter. */
  lemma ServerInvGrows(s: System, s': System, v: Peer)
    requires ServerInv(s, v) && Grows(s, s')
    ensures ServerInv(s', v)
  {
    forall k | 0 <= k < |v.unread|
      ensures Later(s', v.unread[k].related, v.unread[k].result)
    {
      LaterGrows(s, s', v.unread[k].related, v.unread[k].result);
    }
  }

  predicate Grows(s: System, s': System)
  {
    && s'.clientId == s.clientId && s'.guid == s.guid && s'.writer == s.writer && s'.x == s.x && s'.y == s.y
    && s.sent <= s'.sent && |s'.servers| == |s.servers|
  }

  lemma NextGrows(s: System, step: Step)
    ensures Grows(s, Next(s, step))
  {
  }

  lemma LaterGrows(s: System, s': System, related: SampleId, result: int)
    requires Later(s, related, result) && Grows(s, s')
    ensures Later(s', related, result)
  {
    if related.writer == s.writer {
      var m :| related.number - 1 <= m < s.sent && m < 4 && HasValue(s, m, result);
      assert HasValue(s', m, result);
    }
  }

  lemma EventKeepsInv(s: System, i: nat, e: Event)
    requires Inv(s) && Enabled(s, Serves(i, e))
    ensures ServerInv(s, Served(s, s.servers[i], e))
  {
    var v := s.servers[i];
    if e.Took? {
      TakeKeepsInv(s, v, e);
    } else {
      ServeKeepsInv(s, v.taken, v.app, e);
    }
    if e.Answered? && e.reply.clientId == s.clientId {
      AnswerIsLater(s, v.taken, v.app, e);
    }
  }

  lemma StepKeepsServer(s: System, step: Step, i: nat)
    requires Inv(s) && Enabled(s, step) && i < |s.servers|
    ensures ServerInv(Next(s, step), Next(s, step).servers[i])
  {
    var v := s.servers[i];
    if step.Serves? && step.i == i {
      EventKeepsInv(s, i, step.e);
    } else if step.Receives? && step.i == i {
      WithoutFirst(s, v);
    }
    NextGrows(s, step);
    ServerInvGrows(s, Next(s, step), Next(s, step).servers[i]);
  }

  // ---------- What every run keeps: the client ----------

  /** What the client reports or holds are replies that were written to it. */
  ghost predicate RepliesInv(s: System)
  {
    && (forall k :: 0 <= k < |s.client.reported| ==>
          Later(s, s.client.reported[k].related, s.client.reported[k].result))
    && (forall i :: 0 <= i < |s.client.calls| && s.client.calls[i].Holding? ==>
          s.client.calls[i].item.usable && Later(s, s.client.calls[i].item.related, s.client.calls[i].item.result))
  }

  /** How many writes a phase allows for. */
  predicate PhaseInv(c: Client)
  {
    match c.phase
    case AwaitServer => c.ids == []
    case Settle => c.ids == []
    case Sending(n) => n < 4 && |c.ids| == n
    case AwaitReplies => |c.ids| == 4
    case Done => c.stopped && (|c.ids| == 4 || c.ids == [])
    case Failed => 1 <= |c.ids| <= 4
  }

  /** The recorded identities are those of the requests sent and, at the end, of a failed write. */
  ghost predicate IdsInv(s: System)
  {
    var c := s.client;
    && |c.ids| == s.sent + (if c.phase == Failed then 1 else 0)
    && (forall k :: 0 <= k < s.sent ==> c.ids[k] == s.Id(k))
    && (forall k :: s.sent <= k < |c.ids| ==> c.ids[k].writer in {s.writer, UNKNOWN_WRITER})
    && (forall id :: id in c.status <==> id in c.ids)
  }

  ghost predicate MarksInv(c: Client)
  {
    && (forall id :: id in c.status && c.status[id] ==>
          exists k :: 0 <= k < |c.reported| && c.reported[k].related == id)
    && (forall k :: 0 <= k < |c.reported| ==> c.reported[k].related in c.status)
    && (c.byCallback <==> |c.status| == 4 && AllReplied(c.status))
    && (c.byCallback ==> c.stopped)
  }

  ghost predicate Inv(s: System)
  {
    && s.clientId != "" && s.writer != UNKNOWN_WRITER && s.sent <= 4
    && (forall i :: 0 <= i < |s.servers| ==> ServerInv(s, s.servers[i]))
    && RepliesInv(s)
    && PhaseInv(s.client) && IdsInv(s) && MarksInv(s.client)
  }

  /** What a step of the system means for the client. */
  function ActionOf(s: System, step: Step): Option<Action>
  {
    match step
    case Acts(a) => Some(a)
    case Receives(i, c, usable) =>
      if i < |s.servers| && s.servers[i].unread != [] then Some(Take(c, AsSample(s.servers[i].unread[0], usable)))
      else None
    case _ => None
  }

  lemma StepKeepsReplies(s: System, step: Step)
    requires Inv(s) && Enabled(s, step)
    ensures RepliesInv(Next(s, step))
  {
    var s' := Next(s, step);
    NextGrows(s, step);
    forall related, result | Later(s, related, result)
      ensures Later(s', related, result)
    {
      LaterGrows(s, s', related, result);
    }
    if ActionOf(s, step).Some? {
      ActKeepsReplies(s, s', ActionOf(s, step).value);
    }
  }

  lemma ActKeepsReplies(s: System, s': System, a: Action)
    requires RepliesInv(s) && MayAct(s.client, a) && s'.client == Act(s.client, a)
    requires forall related, result :: Later(s, related, result) ==> Later(s', related, result)
    requires a.Take? && a.sample.usable ==> Later(s, a.sample.related, a.sample.result)
    ensures RepliesInv(s')
  {
  }

  lemma StepKeepsIds(s: System, step: Step)
    requires PhaseInv(s.client) && IdsInv(s) && s.sent <= 4 && Enabled(s, step)
    ensures IdsInv(Next(s, step)) && Next(s, step).sent <= 4
  {
    if step.Acts? && step.a.Send? {
      SendKeepsIds(s, Next(s, step), step.a.outcome);
    } else {
      SameIds(s, Next(s, step));
    }
  }

  lemma SendKeepsIds(s: System, s': System, outcome: WriteOutcome)
    requires IdsInv(s) && s.client.phase.Sending? && s'.writer == s.writer && s'.client == Sent(s.client, outcome)
    requires if outcome.ok then s'.sent == s.sent + 1 && outcome.id == s.Id(s.sent)
             else s'.sent == s.sent && outcome.id.writer in {s.writer, UNKNOWN_WRITER}
    ensures IdsInv(s')
  {
    assert s'.client.ids == s.client.ids + [outcome.id];
    assert forall id :: id in s'.client.ids <==> id in s.client.ids || id == outcome.id;
  }

  lemma SameIds(s: System, s': System)
    requires IdsInv(s) && s'.client.ids == s.client.ids && s'.sent == s.sent && s'.writer == s.writer
    requires s'.client.status.Keys == s.client.status.Keys
    requires s'.client.phase == Failed <==> s.client.phase == Failed
    ensures IdsInv(s')
  {
    assert forall id :: id in s'.client.status <==> id in s.client.status;
  }

  lemma StepKeepsPhase(s: System, step: Step)
    requires PhaseInv(s.client) && Enabled(s, step)
    ensures PhaseInv(Next(s, step).client)
  {
  }

  lemma StepKeepsMarks(s: System, step: Step)
    requires PhaseInv(s.client) && IdsInv(s) && MarksInv(s.client) && Enabled(s, step)
    ensures MarksInv(Next(s, step).client)
  {
    if ActionOf(s, step).Some? {
      ActKeepsMarks(s.client, ActionOf(s, step).value);
    }
  }

  lemma ActKeepsMarks(c: Client, a: Action)
    requires PhaseInv(c) && (forall id :: id in c.status <==> id in c.ids) && MarksInv(c) && MayAct(c, a)
    ensures MarksInv(Act(c, a))
  {
    match a
    case Mark(i) => MarkKeepsMarks(c.(calls := Put(c.calls, i, AtTest)), c.calls[i].item);
    case Send(outcome) => SendKeepsMarks(c, outcome);
    case _ => SameMarks(c, Act(c, a));
  }

  lemma SameMarks(c: Client, d: Client)
    requires MarksInv(c)
    requires d.status == c.status && d.reported == c.reported && d.byCallback == c.byCallback
    requires c.stopped ==> d.stopped
    ensures MarksInv(d)
  {
  }

  lemma SendKeepsMarks(c: Client, outcome: WriteOutcome)
    requires |c.ids| < 4 && (forall id :: id in c.status <==> id in c.ids) && MarksInv(c)
    ensures MarksInv(Sent(c, outcome))
  {
    ElementsAtMost(c.ids, c.status.Keys);
    assert |c.status| == |c.status.Keys|;
    assert !Sent(c, outcome).status[outcome.id];
  }

  lemma MarkKeepsMarks(c: Client, sample: ReplySample)
    requires MarksInv(c)
    ensures MarksInv(WithReply(c, sample))
  {
    var d := WithReply(c, sample);
    forall id | id in d.status && d.status[id]
      ensures exists k :: 0 <= k < |d.reported| && d.reported[k].related == id
    {
      if id == sample.related && Fresh(c.status, sample) {
        assert d.reported[|c.reported|].related == id;
      } else {
        var k :| 0 <= k < |c.reported| && c.reported[k].related == id;
        assert d.reported[k].related == id;
      }
    }
    if !Fresh(c.status, sample) {
      assert d.status == c.status;
    } else {
      assert !c.status[sample.related];
    }
  }

  lemma StepKeepsInv(s: System, step: Step)
    requires Inv(s) && Enabled(s, step)
    ensures Inv(Next(s, step))
  {
    var s' := Next(s, step);
    NextGrows(s, step);
    forall i | 0 <= i < |s'.servers|
      ensures ServerInv(s', s'.servers[i])
    {
      StepKeepsServer(s, step, i);
    }
    StepKeepsReplies(s, step);
    StepKeepsIds(s, step);
    StepKeepsPhase(s, step);
    StepKeepsMarks(s, step);
  }

  lemma {:induction false} RunsKeepInv(sparing: bool, s: System, steps: seq<Step>)
    requires Inv(s) && Runs(sparing, s, steps)
    ensures Inv(Final(sparing, s, steps)) && Grows(s, Final(sparing, s, steps))
    decreases |steps|
  {
    if steps != [] {
      StepKeepsInv(s, steps[0]);
      NextGrows(s, steps[0]);
      RunsKeepInv(sparing, Next(s, steps[0]), steps[1..]);
    }
  }

  lemma InitialInv(s: System)
    requires Initial(s)
    ensures Inv(s)
  {
  }

  // ---------- What sparing runs keep besides ----------

  ghost predicate Intact(s: System, v: Peer)
  {
    HoldsAll(s, v.app) && forall k :: 0 <= k < |v.unread| ==> ExactReply(s, v.unread[k].related, v.unread[k].result)
  }

  /** The request objects still hold what was taken under the identities of the entries. */
  ghost predicate HoldsAll(s: System, t: State)
  {
    forall k :: 0 <= k < |t.requests| && t.requests[k].info.id.writer == s.writer ==> Holds(s, t, t.requests[k])
  }

  predicate Holds(s: System, t: State, entry: Entry)
  {
    && entry.cell < |t.cells| && 1 <= entry.info.id.number <= 4
    && t.cells[entry.cell] == s.Own(entry.info.id.number - 1)
  }

  /** A reply to a request of the client carries the exact value of that request. */
  predicate ExactReply(s: System, related: SampleId, result: int)
  {
    related.writer == s.writer ==>
      1 <= related.number <= s.sent && related.number <= 4 && HasValue(s, related.number - 1, result)
  }

  ghost predicate ExactInv(s: System)
  {
    && (forall i :: 0 <= i < |s.servers| ==> Intact(s, s.servers[i]))
    && (forall k :: 0 <= k < |s.client.reported| ==>
          ExactReply(s, s.client.reported[k].related, s.client.reported[k].result))
    && (forall i :: 0 <= i < |s.client.calls| && s.client.calls[i].Holding? ==>
          ExactReply(s, s.client.calls[i].item.related, s.client.calls[i].item.result))
  }

  lemma ServeKeepsHeld(s: System, taken: nat, t: State, e: Event)
    requires AppInv(s, taken, t) && HoldsAll(s, t) && Allowed(t, e) && Spares(t, e)
    ensures HoldsAll(s, Apply(t, e))
  {
    if e.Queued? {
      assert InHand(s, taken, t, e.entry.cell);
    }
  }

  lemma AnswerIsExact(s: System, taken: nat, t: State, e: Event)
    requires AppInv(s, taken, t) && taken <= s.sent && HoldsAll(s, t) && e.Answered? && Allowed(t, e)
    ensures ExactReply(s, e.reply.related, e.reply.result)
  {
    assert e.entry.info.id.writer == s.writer ==> Holds(s, t, t.requests[0]);
    assert Tied(s, taken, t.requests[0].info, t.cells[t.requests[0].cell]);
    if e.entry.info.id.writer == s.writer {
      ValueIsExact(s, e.entry.info.id.number - 1, e.reply.result);
    }
  }

  lemma StepKeepsIntact(s: System, step: Step, i: nat)
    requires Inv(s) && ExactInv(s) && Enabled(s, step) && StepSpares(s, step) && i < |s.servers|
    ensures Intact(Next(s, step), Next(s, step).servers[i])
  {
    var v, s' := s.servers[i], Next(s, step);
    NextGrows(s, step);
    if step.Serves? && step.i == i {
      ServeKeepsHeld(s, v.taken, v.app, step.e);
      if step.e.Answered? {
        AnswerIsExact(s, v.taken, v.app, step.e);
      }
    } else if step.Receives? && step.i == i {
      assert forall k :: 0 <= k < |v.unread[1..]| ==> v.unread[1..][k] == v.unread[k + 1];
    }
    IntactGrows(s, s', s'.servers[i]);
  }

  lemma IntactGrows(s: System, s': System, v: Peer)
    requires Intact(s, v) && Grows(s, s')
    ensures Intact(s', v)
  {
  }

  lemma StepKeepsExact(s: System, step: Step)
    requires Inv(s) && ExactInv(s) && Enabled(s, step) && StepSpares(s, step)
    ensures ExactInv(Next(s, step))
  {
    var s' := Next(s, step);
    NextGrows(s, step);
    forall i | 0 <= i < |s'.servers|
      ensures Intact(s', s'.servers[i])
    {
      StepKeepsIntact(s, step, i);
    }
    if ActionOf(s, step).Some? {
      ActKeepsExact(s, s', ActionOf(s, step).value);
    }
  }

  lemma ActKeepsExact(s: System, s': System, a: Action)
    requires ExactInv(s) && Grows(s, s') && MayAct(s.client, a) && s'.client == Act(s.client, a)
    requires a.Take? && a.sample.usable ==> ExactReply(s, a.sample.related, a.sample.result)
    ensures forall k :: 0 <= k < |s'.client.reported| ==>
              ExactReply(s', s'.client.reported[k].related, s'.client.reported[k].result)
    ensures forall i :: 0 <= i < |s'.client.calls| && s'.client.calls[i].Holding? ==>
              ExactReply(s', s'.client.calls[i].item.related, s'.client.calls[i].item.result)
  {
  }

  lemma {:induction false} RunsKeepExact(s: System, steps: seq<Step>)
    requires Inv(s) && ExactInv(s) && Runs(true, s, steps)
    ensures ExactInv(Final(true, s, steps))
    decreases |steps|
  {
    if steps != [] {
      StepKeepsInv(s, steps[0]);
      StepKeepsExact(s, steps[0]);
      RunsKeepExact(Next(s, steps[0]), steps[1..]);
    }
  }

  // ---------- What replies and a stop by the callback mean ----------

  lemma {:induction false} ElementsAtMost(q: seq<SampleId>, keys: set<SampleId>)
    requires forall id :: id in keys ==> id in q
    ensures |keys| <= |q|
    decreases |q|
  {
    if q != [] {
      ElementsAtMost(q[1..], keys - {q[0]});
    } else {
      assert keys == {};
    }
  }

  /** Nobody replies to a write that failed. */
  lemma FailedIsUnmarked(s: System)
    requires Inv(s) && s.sent < |s.client.ids| && s.client.status[s.client.ids[s.sent]]
    ensures s.client.ids[s.sent] in s.client.ids[..s.sent]
  {
    var c, last := s.client, s.client.ids[s.sent];
    var j :| 0 <= j < |c.reported| && c.reported[j].related == last;
    assert Later(s, c.reported[j].related, c.reported[j].result);
    assert last == s.Id(last.number - 1) == c.ids[..s.sent][last.number - 1];
  }

  /** A client with four marked identities has sent all four requests. */
  lemma FourSent(s: System)
    requires Inv(s) && s.client.byCallback
    ensures s.sent == 4 && s.client.ids == [s.Id(0), s.Id(1), s.Id(2), s.Id(3)]
    ensures forall k :: 0 <= k < 4 ==> s.client.status[s.Id(k)]
  {
    var c := s.client;
    assert |c.status.Keys| == 4;
    ElementsAtMost(c.ids, c.status.Keys);
    if s.sent < 4 {
      assert c.ids[s.sent] in c.status;
      FailedIsUnmarked(s);
      assert c.ids == c.ids[..s.sent] + [c.ids[s.sent]];
      ElementsAtMost(c.ids[..s.sent], c.status.Keys);
    }
    assert forall k :: 0 <= k < 4 ==> c.ids[k] in c.status;
  }

  lemma ReplyTo(s: System, k: nat) returns (j: nat)
    requires Inv(s) && s.Id(k) in s.client.status && s.client.status[s.Id(k)]
    ensures j < |s.client.reported| && s.client.reported[j].related == s.Id(k)
  {
    j :| 0 <= j < |s.client.reported| && s.client.reported[j].related == s.Id(k);
  }

  /** In every run, however many samples the calls take, each reply that the client reports is for
      one of its requests, and carries the exact value of that request or of a later one. So a reply
      to the division is exact. */
  lemma ReportedRepliesAreLater(s: System, steps: seq<Step>, j: nat)
    requires Initial(s) && Runs(false, s, steps) && j < |Final(false, s, steps).client.reported|
    ensures var t := Final(false, s, steps);
            var sample := t.client.reported[j];
      && (exists k, m :: 0 <= k <= m < t.sent && m < 4 && sample.related == t.Id(k) && HasValue(t, m, sample.result))
      && (sample.related == t.Id(3) ==> HasValue(t, 3, sample.result))
  {
    InitialInv(s);
    RunsKeepInv(false, s, steps);
    var t := Final(false, s, steps);
    var sample := t.client.reported[j];
    assert sample.related in t.client.ids && Later(t, sample.related, sample.result);
    var m :| sample.related.number - 1 <= m < t.sent && m < 4 && HasValue(t, m, sample.result);
    assert sample.related == t.Id(sample.related.number - 1);
  }

  /** A reply to request number k has been reported, with the exact value of a request m >= k. */
  ghost predicate Replied(s: System, k: nat)
  {
    exists j, m :: 0 <= j < |s.client.reported| && k <= m < 4 &&
                   s.client.reported[j].related == s.Id(k) && HasValue(s, m, s.client.reported[j].result)
  }

  /** In every run, however many samples the calls take: once the reply callback has stopped the
      client, it has sent its four requests under four identities and reported a reply to each of
      them. */
  lemma StopMeansFourReplies(s: System, steps: seq<Step>)
    requires Initial(s) && Runs(false, s, steps) && Final(false, s, steps).client.byCallback
    ensures var t := Final(false, s, steps);
            t.client.ids == [t.Id(0), t.Id(1), t.Id(2), t.Id(3)] && forall k :: 0 <= k < 4 ==> Replied(t, k)
  {
    InitialInv(s);
    RunsKeepInv(false, s, steps);
    var t := Final(false, s, steps);
    FourSent(t);
    forall k | 0 <= k < 4
      ensures Replied(t, k)
    {
      StoppedMeansReplied(t, k);
    }
  }

  lemma StoppedMeansReplied(s: System, k: nat)
    requires Inv(s) && s.sent == 4 && k < 4 && s.Id(k) in s.client.status && s.client.status[s.Id(k)]
    ensures Replied(s, k)
  {
    var j := ReplyTo(s, k);
    var sample := s.client.reported[j];
    assert Later(s, sample.related, sample.result);
    var m :| sample.related.number - 1 <= m < s.sent && m < 4 && HasValue(s, m, sample.result);
  }

  /** With a divisor of 0 the reply callback never stops the client, in any run. */
  lemma DivisionByZeroNeverCompletes(s: System, steps: seq<Step>)
    requires Initial(s) && Runs(false, s, steps) && s.y == 0
    ensures !Final(false, s, steps).client.byCallback
  {
    InitialInv(s);
    RunsKeepInv(false, s, steps);
    var t := Final(false, s, steps);
    if t.client.byCallback {
      FourSent(t);
      StoppedMeansReplied(t, 3);
      DivisionHasValue(t.clientId, t.x, t.y);
    }
  }

  lemma DivisionHasValue(clientId: string, x: int16, y: int16)
    ensures Exact(RequestOf(clientId, x, y, 3)) == None <==> y == 0
  {
  }

  /** A reply to request number k has been reported, with its own exact value. */
  ghost predicate Completed(s: System, k: nat)
    requires k < 4
  {
    exists j :: 0 <= j < |s.client.reported| && s.client.reported[j].related == s.Id(k) &&
                HasValue(s, k, s.client.reported[j].result)
  }

  /** In every sparing run: once the reply callback has stopped the client, its four requests were
      sent under four identities and each has a reply with its exact value. */
  lemma StopMeansFourExactReplies(s: System, steps: seq<Step>)
    requires Initial(s) && Runs(true, s, steps) && Final(true, s, steps).client.byCallback
    ensures var t := Final(true, s, steps);
            t.client.ids == [t.Id(0), t.Id(1), t.Id(2), t.Id(3)] && forall k :: 0 <= k < 4 ==> Completed(t, k)
  {
    InitialInv(s);
    RunsKeepInv(true, s, steps);
    RunsKeepExact(s, steps);
    var t := Final(true, s, steps);
    FourSent(t);
    forall k | 0 <= k < 4
      ensures Completed(t, k)
    {
      var j := ReplyTo(t, k);
      assert ExactReply(t, t.client.reported[j].related, t.client.reported[j].result);
    }
  }

  /** Every reply the client reports in a sparing run is the exact value of the request that was
      sent under its identity. */
  lemma ReportedRepliesAreExact(s: System, steps: seq<Step>, j: nat)
    requires Initial(s) && Runs(true, s, steps) && j < |Final(true, s, steps).client.reported|
    ensures var t := Final(true, s, steps);
            var sample := t.client.reported[j];
            exists k :: 0 <= k < t.sent && k < 4 && sample.related == t.Id(k) && HasValue(t, k, sample.result)
  {
    InitialInv(s);
    RunsKeepInv(true, s, steps);
    RunsKeepExact(s, steps);
    var t := Final(true, s, steps);
    var sample := t.client.reported[j];
    assert sample.related in t.client.ids && Later(t, sample.related, sample.result);
    assert ExactReply(t, sample.related, sample.result);
    assert sample.related == t.Id(sample.related.number - 1);
  }

  /** A sparing run is a run. */
  lemma {:induction false} SparingRuns(s: System, steps: seq<Step>)
    requires Runs(true, s, steps)
    ensures Runs(false, s, steps) && Final(false, s, steps) == Final(true, s, steps)
    decreases |steps|
  {
    if steps != [] {
      SparingRuns(Next(s, steps[0]), steps[1..]);
    }
  }

  // ---------- The parts of a run ----------

  /** What the client does in a run. */
  function ActionsOf(s: System, steps: seq<Step>): seq<Action>
    decreases |steps|
  {
    if steps == [] then []
    else
      (if ActionOf(s, steps[0]).Some? then [ActionOf(s, steps[0]).value] else []) +
      ActionsOf(Next(s, steps[0]), steps[1..])
  }

  /** What server i does in a run. */
  function EventsOf(steps: seq<Step>, i: nat): seq<Event>
  {
    if steps == [] then []
    else (if steps[0].Serves? && steps[0].i == i then [steps[0].e] else []) + EventsOf(steps[1..], i)
  }

  /** In a run the client goes through a history of its own, which a ClientApp may have... */
  lemma {:induction false} ClientOfRun(s: System, steps: seq<Step>)
    requires Runs(false, s, steps)
    ensures Histories.Lawful(CLIENT, s.client, ActionsOf(s, steps))
    ensures Histories.After(CLIENT, s.client, ActionsOf(s, steps)) == Final(false, s, steps).client
    decreases |steps|
  {
    if steps != [] {
      var rest := ActionsOf(Next(s, steps[0]), steps[1..]);
      ClientOfRun(Next(s, steps[0]), steps[1..]);
      if ActionOf(s, steps[0]).Some? {
        var a := ActionOf(s, steps[0]).value;
        assert ActionsOf(s, steps) == [a] + rest;
        Histories.One(CLIENT, s.client, a);
        Histories.Concat(CLIENT, s.client, [a], rest);
      } else {
        assert ActionsOf(s, steps) == rest;
      }
    }
  }

  /** ... and every server through one that a ServerApp may have. */
  lemma {:induction false} ServerOfRun(s: System, steps: seq<Step>, i: nat)
    requires Runs(false, s, steps) && i < |s.servers|
    ensures |Final(false, s, steps).servers| == |s.servers|
    ensures Lawful(s.servers[i].app, EventsOf(steps, i))
    ensures After(s.servers[i].app, EventsOf(steps, i)) == Final(false, s, steps).servers[i].app
    decreases |steps|
  {
    if steps != [] {
      ServerOfRun(Next(s, steps[0]), steps[1..], i);
      if steps[0].Serves? && steps[0].i == i {
        assert EventsOf(steps, i) == [steps[0].e] + EventsOf(steps[1..], i);
        Histories.One(SERVER, s.servers[i].app, steps[0].e);
        Histories.Concat(SERVER, s.servers[i].app, [steps[0].e], EventsOf(steps[1..], i));
      } else {
        assert EventsOf(steps, i) == EventsOf(steps[1..], i);
      }
    }
  }

  lemma {:induction false} EventsOfLast(steps: seq<Step>, step: Step, i: nat)
    ensures EventsOf(steps + [step], i) == EventsOf(steps, i) + EventsOf([step], i)
    decreases |steps|
  {
    if steps == [] {
      assert steps + [step] == [step];
    } else {
      assert (steps + [step])[1..] == steps[1..] + [step];
      EventsOfLast(steps[1..], step, i);
    }
  }

  /** The number of samples that the call takes. */
  function Takes(steps: seq<Step>, i: nat, cell: nat): nat
  {
    Histories.Count(EventsOf(steps, i), IsTakeOf(cell))
  }

  /** No call of a server's on_data_available takes a second sample. */
  ghost predicate OneSamplePerCall(s: System, steps: seq<Step>)
  {
    forall i: nat, cell: nat :: i < |s.servers| ==> Takes(steps, i, cell) <= 1
  }

  lemma {:induction false} CountAppend(es: seq<Event>, fs: seq<Event>, cell: nat)
    ensures Histories.Count(es + fs, IsTakeOf(cell)) ==
            Histories.Count(es, IsTakeOf(cell)) + Histories.Count(fs, IsTakeOf(cell))
    decreases |es|
  {
    if es == [] {
      assert es + fs == fs;
    } else {
      assert (es + fs)[1..] == es[1..] + fs;
      CountAppend(es[1..], fs, cell);
    }
  }

  /** A run in which every call takes one sample is sparing. */
  lemma {:induction false} OneSampleRunsAreSparing(s: System, steps: seq<Step>)
    requires Initial(s) && Runs(false, s, steps) && OneSamplePerCall(s, steps)
    ensures Runs(true, s, steps) && Final(true, s, steps) == Final(false, s, steps)
    decreases |steps|
  {
    if steps != [] {
      var n := |steps| - 1;
      var first, step := steps[..n], steps[n];
      assert steps == first + [step];
      Histories.Extend(Behaviour(false), s, first, step);
      Histories.Extend(Behaviour(true), s, first, step);
      forall i: nat, cell: nat | i < |s.servers|
        ensures Takes(first, i, cell) + Takes([step], i, cell) <= 1
      {
        assert Takes(steps, i, cell) <= 1;
        EventsOfLast(first, step, i);
        CountAppend(EventsOf(first, i), EventsOf([step], i), cell);
      }
      OneSampleRunsAreSparing(s, first);
      FirstTakeSpares(s, first, step);
    }
  }

  lemma FirstTakeSpares(s: System, steps: seq<Step>, step: Step)
    requires Initial(s) && Runs(false, s, steps) && Enabled(Final(false, s, steps), step)
    requires forall i: nat, cell: nat :: i < |s.servers| ==>
               Takes(steps, i, cell) + Takes([step], i, cell) <= 1
    ensures StepSpares(Final(false, s, steps), step)
  {
    if step.Serves? && step.e.Took? {
      var i, cell := step.i, step.e.cell;
      InitialInv(s);
      RunsKeepInv(false, s, steps);
      ServerOfRun(s, steps, i);
      assert EventsOf([step], i) == [step.e] && Takes([step], i, cell) == 1;
      assert Takes(steps, i, cell) == 0;
      var t := Final(false, s, steps).servers[i].app;
      if k :| 0 <= k < |t.requests| && t.requests[k].cell == cell {
        QueuedWasTaken(EventsOf(steps, i), cell);
      }
    }
  }
}
