/** The client of the request/reply service: it waits for a server, sends one request for each
    operation and stops when every recorded request has a reply. As in the server, stop and the
    tests of the stop flag are events of their own, and a list of events is one interleaving. */
module ClientApp {
  import opened Histories
  import opened Callbacks
  import opened Calculator
  import opened MatchTables
  import opened ServerApp

  type StatusMap = map<SampleId, bool>

  /** A reply sample: the identity of the request it answers, its result, and whether it is alive
      and valid. */
  datatype ReplySample = ReplySample(related: SampleId, result: int, usable: bool)

  /** The result of one write: the return code and the identity DDS reports. */
  datatype WriteOutcome = WriteOutcome(ok: bool, id: SampleId)

  predicate AllReplied(m: StatusMap)
  {
    forall id :: id in m ==> m[id]
  }

  /** The four requests, in the order in which they are sent. */
  function RequestOf(clientId: string, x: int16, y: int16, n: nat): Payload
    requires n < 4
  {
    Payload(clientId, [Addition, Subtraction, Multiplication, Division][n], x, y)
  }

  /** Marking one reply. */
  function Marked(m: StatusMap, sample: ReplySample): StatusMap
  {
    if sample.usable && sample.related in m then m[sample.related := true] else m
  }

  /** The reply is the first one to a recorded request. */
  predicate Fresh(m: StatusMap, sample: ReplySample)
  {
    sample.usable && sample.related in m && !m[sample.related]
  }

  /** The reply is the last one missing. */
  predicate Completes(m: StatusMap, sample: ReplySample)
  {
    Fresh(m, sample) && |Marked(m, sample)| == 4 && AllReplied(Marked(m, sample))
  }

  // ---------- The client as a machine ----------

  /** Where ClientApp::run stands. */
  datatype Phase =
    | AwaitServer
    | Settle
    | Sending(n: nat)  // n requests have been sent
    | AwaitReplies
    | Done
    | Failed           // a write failed and run threw an exception

  datatype Client = Client(
    phase: Phase,
    ids: seq<SampleId>,             // the recorded identities, in the order of the writes
    status: StatusMap,
    readers: set<Guid>,
    writers: set<Guid>,
    calls: seq<Call<ReplySample>>,  // the calls of on_data_available
    reported: seq<ReplySample>,     // the replies it has printed as received
    stopped: bool,
    byCallback: bool)               // on_data_available has called stop
  {
    predicate Stands(c: nat, call: Call<ReplySample>) { c < |calls| && calls[c] == call }
  }

  const NEW_CLIENT := Client(AwaitServer, [], map[], {}, {}, [], [], false, false)

  datatype Action =
    | FindServer                             // the first wait of run is over
    | SettleOver                             // and the second one
    | Send(outcome: WriteOutcome)
    | Finish                                 // the last wait of run is over
    | StopClient
    | ReaderOfServer(g: Guid, status: bool)
    | WriterOfServer(g: Guid, status: bool)
    | OpenCall                               // on_data_available is called
    | PassTest(c: nat)                       // it finds the stop flag clear
    | Take(c: nat, sample: ReplySample)      // it takes a reply
    | Mark(c: nat)                           // the critical section for a usable reply
    | CloseCall(c: nat)                      // no reply, or the stop flag is set

  /** Waits end when their condition holds; the second one also after a second. */
  predicate MayAct(c: Client, a: Action)
  {
    match a
    case FindServer => c.phase == AwaitServer && (c.readers * c.writers != {} || c.stopped)
    case SettleOver => c.phase == Settle
    case Send(_) => c.phase.Sending? && c.phase.n < 4
    case Finish => c.phase == AwaitReplies && c.stopped
    case StopClient => true
    case ReaderOfServer(_, _) => true
    case WriterOfServer(_, _) => true
    case OpenCall => true
    case PassTest(i) => !c.stopped && c.Stands(i, AtTest)
    case Take(i, _) => c.Stands(i, AtTake)
    case Mark(i) => i < |c.calls| && c.calls[i].Holding?
    case CloseCall(i) => c.Stands(i, AtTake) || (c.stopped && c.Stands(i, AtTest))
  }

  function Act(c: Client, a: Action): Client
  {
    match a
    case FindServer => c.(phase := if c.stopped then Done else Settle)
    case SettleOver => c.(phase := if c.stopped then Done else Sending(0))
    case Send(outcome) => Sent(c, outcome)
    case Finish => c.(phase := Done)
    case StopClient => c.(stopped := true)
    case ReaderOfServer(g, status) => c.(readers := Assign(c.readers, g, status))
    case WriterOfServer(g, status) => c.(writers := Assign(c.writers, g, status))
    case OpenCall => c.(calls := c.calls + [AtTest])
    case PassTest(i) => c.(calls := Put(c.calls, i, AtTake))
    case Take(i, sample) => c.(calls := Put(c.calls, i, if sample.usable then Holding(sample) else AtTest))
    case Mark(i) =>
      if i < |c.calls| && c.calls[i].Holding? then
        WithReply(c.(calls := Put(c.calls, i, AtTest)), c.calls[i].item)
      else c
    case CloseCall(i) => c.(calls := Put(c.calls, i, Over))
  }

  /** The identity is recorded even when the write fails. */
  function Sent(c: Client, outcome: WriteOutcome): Client
  {
    var n := if c.phase.Sending? then c.phase.n else 0;
    c.(ids := c.ids + [outcome.id],
       status := c.status[outcome.id := false],
       phase := AfterSend(n, outcome.ok))
  }

  function AfterSend(n: nat, ok: bool): Phase
  {
    if !ok then Failed else if n == 3 then AwaitReplies else Sending(n + 1)
  }

  function WithReply(c: Client, sample: ReplySample): Client
  {
    c.(status := Marked(c.status, sample),
       reported := if Fresh(c.status, sample) then c.reported + [sample] else c.reported,
       stopped := c.stopped || Completes(c.status, sample),
       byCallback := c.byCallback || Completes(c.status, sample))
  }

  const CLIENT: Machine<Client, Action> := Machine(MayAct, Act)

  // ---------- The client as an object ----------

  class ClientApp {
    const clientId: string
    const x: int16
    const y: int16
    const serverMatchedStatus: RemoteServerMatchedStatus
    var requestsStatus: StatusMap
    var stop: bool
    ghost var phase: Phase                    // where the threads stand
    ghost var calls: seq<Call<ReplySample>>
    ghost var ids: seq<SampleId>
    ghost var reported: seq<ReplySample>
    ghost var byCallback: bool
    ghost var history: seq<Action>

    ghost function View(): Client
      reads this, serverMatchedStatus
    {
      Client(phase, ids, requestsStatus, serverMatchedStatus.RequestReaders(), serverMatchedStatus.ReplyWriters(),
             calls, reported, stop, byCallback)
    }

    ghost predicate Valid()
      reads this, serverMatchedStatus
    {
      Recorded(CLIENT, NEW_CLIENT, history, View())
    }

    /** Where a call of on_data_available stands. */
    ghost predicate Stands(c: nat, call: Call<ReplySample>)
      reads this`calls
    {
      c < |calls| && calls[c] == call
    }

    /** The call was one event. */
    twostate predicate Did(a: Action)
      reads this, serverMatchedStatus
    {
      history == old(history) + [a] && Does(CLIENT, old(View()), a, View())
    }

    constructor (clientId: string, x: int16, y: int16)
      ensures this.clientId == clientId && this.x == x && this.y == y
      ensures Valid() && View() == NEW_CLIENT && history == [] && fresh(serverMatchedStatus)
    {
      this.clientId, this.x, this.y := clientId, x, y;
      serverMatchedStatus := new RemoteServerMatchedStatus();
      requestsStatus, stop := map[], false;
      phase, calls, ids, reported, byCallback, history := AwaitServer, [], [], [], false, [];
    }

    /** The end of a method that took the client from c on by the action a. */
    ghost method Record(c: Client, a: Action)
      requires Recorded(CLIENT, NEW_CLIENT, history, c) && MayAct(c, a) && View() == Act(c, a)
      modifies this`history
      ensures history == old(history) + [a] && Recorded(CLIENT, NEW_CLIENT, history, View())
    {
      RecordNext(CLIENT, NEW_CLIENT, history, c, a);
      history := history + [a];
    }

    /** stop takes no lock. */
    method Stop()
      requires Valid()
      modifies this
      ensures Valid() && Did(StopClient) && stop && View() == old(View()).(stopped := true)
    {
      ghost var c := View();
      stop := true;
      Record(c, StopClient);
    }

    method OnPublicationMatched(server: Guid, change: int)
      requires Valid()
      modifies this, serverMatchedStatus
      ensures Valid()
      ensures serverMatchedStatus.RequestReaders() ==
                if change == 1 then old(serverMatchedStatus.RequestReaders()) + {server}
                else if change == -1 then old(serverMatchedStatus.RequestReaders()) - {server}
                else old(serverMatchedStatus.RequestReaders())
      ensures View() == old(View()).(readers := serverMatchedStatus.RequestReaders())
      ensures change in {1, -1} ==> Did(ReaderOfServer(server, change == 1))
    {
      ghost var c := View();
      if change == 1 {
        serverMatchedStatus.MatchRequestReader(server, true);
        Record(c, ReaderOfServer(server, true));
      } else if change == -1 {
        serverMatchedStatus.MatchRequestReader(server, false);
        Record(c, ReaderOfServer(server, false));
      }
    }

    method OnSubscriptionMatched(server: Guid, change: int)
      requires Valid()
      modifies this, serverMatchedStatus
      ensures Valid()
      ensures serverMatchedStatus.ReplyWriters() ==
                if change == 1 then old(serverMatchedStatus.ReplyWriters()) + {server}
                else if change == -1 then old(serverMatchedStatus.ReplyWriters()) - {server}
                else old(serverMatchedStatus.ReplyWriters())
      ensures View() == old(View()).(writers := serverMatchedStatus.ReplyWriters())
      ensures change in {1, -1} ==> Did(WriterOfServer(server, change == 1))
    {
      ghost var c := View();
      if change == 1 {
        serverMatchedStatus.MatchReplyWriter(server, true);
        Record(c, WriterOfServer(server, true));
      } else if change == -1 {
        serverMatchedStatus.MatchReplyWriter(server, false);
        Record(c, WriterOfServer(server, false));
      }
    }

    /** The first wait of run. */
    method AwaitMatch() returns (over: bool)
      requires Valid() && phase == AwaitServer
      modifies this
      ensures Valid()
      ensures over <==>
                old(stop) || old(serverMatchedStatus.RequestReaders() * serverMatchedStatus.ReplyWriters()) != {}
      ensures if over then Did(FindServer) else View() == old(View())
      ensures phase == if !over then AwaitServer else if stop then Done else Settle
    {
      ghost var c := View();
      over := serverMatchedStatus.IsAnyServerMatched();
      over := over || stop;
      if over {
        phase := if stop then Done else Settle;
        Record(c, FindServer);
      }
    }

    /** The second wait of run, which also ends after a second, and the test after it. */
    method SettleDown() returns (go: bool)
      requires Valid() && phase == Settle
      modifies this
      ensures Valid() && go == !stop && Did(SettleOver) && phase == if stop then Done else Sending(0)
    {
      ghost var c := View();
      go := !stop;
      phase := if go then Sending(0) else Done;
      Record(c, SettleOver);
    }

    /** The identity is recorded even when the write fails. */
    method SendRequest(request: Payload, outcome: WriteOutcome) returns (ok: bool)
      requires Valid() && phase.Sending? && phase.n < 4 && request == RequestOf(clientId, x, y, phase.n)
      modifies this
      ensures Valid() && ok == outcome.ok && Did(Send(outcome))
      ensures requestsStatus == old(requestsStatus)[outcome.id := false] && ids == old(ids) + [outcome.id]
      ensures stop == old(stop)
      ensures phase == if !ok then Failed else if old(phase.n) == 3 then AwaitReplies else Sending(old(phase.n) + 1)
    {
      ghost var c := View();
      requestsStatus := requestsStatus[outcome.id := false];
      ids := ids + [outcome.id];
      phase := AfterSend(phase.n, outcome.ok);
      ok := outcome.ok;
      Record(c, Send(outcome));
    }

    /** One of the writes of send_requests. */
    method SendInTurn(request: Payload, outcomes: seq<WriteOutcome>, n: nat, ghost past: seq<Action>)
        returns (ok: bool)
      requires Valid() && n < 4 == |outcomes| && phase == Sending(n) && request == RequestOf(clientId, x, y, n)
      requires history == past + Sends(outcomes, n)
      modifies this
      ensures Valid() && ok == outcomes[n].ok && phase == AfterSend(n, ok)
      ensures history == past + Sends(outcomes, n + 1)
      ensures ids == old(ids) + [outcomes[n].id]
    {
      ok := SendRequest(request, outcomes[n]);
    }

    /** send_requests when no other thread interferes: the writes stop at the first failure. */
    method SendRequests(outcomes: seq<WriteOutcome>) returns (ret: bool, sent: seq<Payload>)
      requires Valid() && phase == Sending(0) && |outcomes| == 4
      modifies this
      ensures Valid()
      ensures 1 <= |sent| <= 4
      ensures sent == [Payload(clientId, Addition, x, y), Payload(clientId, Subtraction, x, y),
                       Payload(clientId, Multiplication, x, y), Payload(clientId, Division, x, y)][..|sent|]
      ensures ids == old(ids) + [outcomes[0].id, outcomes[1].id, outcomes[2].id, outcomes[3].id][..|sent|]
      ensures forall i :: 0 <= i < |sent| - 1 ==> outcomes[i].ok
      ensures ret == outcomes[|sent| - 1].ok && (ret ==> |sent| == 4)
      ensures history == old(history) + Sends(outcomes, |sent|)
      ensures phase == if ret then AwaitReplies else Failed
    {
      ghost var past := history;
      var request := Payload(clientId, Addition, x, y);
      ret := SendInTurn(request, outcomes, 0, past);
      sent := [request];
      if ret {
        request := request.(operation := Subtraction);
        ret := SendInTurn(request, outcomes, 1, past);
        sent := sent + [request];
      }
      if ret {
        request := request.(operation := Multiplication);
        ret := SendInTurn(request, outcomes, 2, past);
        sent := sent + [request];
      }
      if ret {
        request := request.(operation := Division);
        ret := SendInTurn(request, outcomes, 3, past);
        sent := sent + [request];
      }
    }

    /** The last wait of run. */
    method AwaitStop()
      requires Valid() && phase == AwaitReplies && stop
      modifies this
      ensures Valid() && Did(Finish) && phase == Done
    {
      ghost var c := View();
      phase := Done;
      Record(c, Finish);
    }

    /** The start of on_data_available. */
    ghost method EnterDataAvailable() returns (c: nat)
      requires Valid()
      modifies this
      ensures Valid() && Did(OpenCall) && c == |old(calls)| && calls == old(calls) + [AtTest]
    {
      var v := View();
      c := |calls|;
      calls := calls + [AtTest];
      Record(v, OpenCall);
    }

    /** The test of its loop. */
    method TestStop(ghost c: nat) returns (open: bool)
      requires Valid() && Stands(c, AtTest)
      modifies this
      ensures Valid() && open == !stop && stop == old(stop) && requestsStatus == old(requestsStatus)
      ensures Did(if open then PassTest(c) else CloseCall(c))
      ensures calls == old(calls)[c := if open then AtTake else Over]
    {
      ghost var v := View();
      open := !stop;
      calls := Put(calls, c, if open then AtTake else Over);
      Record(v, if open then PassTest(c) else CloseCall(c));
    }

    /** Taking a reply takes no lock, and the client may have been stopped since the test. */
    ghost method TakeReply(c: nat, sample: ReplySample)
      requires Valid() && Stands(c, AtTake)
      modifies this
      ensures Valid() && Did(Take(c, sample)) && stop == old(stop) && requestsStatus == old(requestsStatus)
      ensures calls == old(calls)[c := if sample.usable then Holding(sample) else AtTest]
    {
      var v := View();
      calls := Put(calls, c, if sample.usable then Holding(sample) else AtTest);
      Record(v, Take(c, sample));
    }

    /** There is no reply to take. */
    ghost method FindNoReply(c: nat)
      requires Valid() && Stands(c, AtTake)
      modifies this
      ensures Valid() && Did(CloseCall(c))
    {
      var v := View();
      calls := Put(calls, c, Over);
      Record(v, CloseCall(c));
    }

    /** The critical section of on_data_available. Unknown and duplicate replies change nothing. */
    method MarkReply(ghost c: nat, sample: ReplySample)
      requires Valid() && sample.usable && Stands(c, Holding(sample))
      modifies this
      ensures Valid() && Did(Mark(c))
      ensures requestsStatus == old(if sample.related in requestsStatus then requestsStatus[sample.related := true]
                                    else requestsStatus)
      ensures reported == old(if sample.related in requestsStatus && !requestsStatus[sample.related] then
                                reported + [sample]
                              else reported)
      ensures stop <==> old(stop) || (old(sample.related in requestsStatus && !requestsStatus[sample.related]) &&
                                      |requestsStatus| == 4 && forall id :: id in requestsStatus ==> requestsStatus[id])
    {
      ghost var v := View();
      var completes := MarkStatus(sample);
      assert requestsStatus == Marked(v.status, sample) && completes == Completes(v.status, sample);
      if completes {
        stop := true;
        byCallback := true;
      }
      if Fresh(v.status, sample) {
        reported := reported + [sample];
      }
      calls := Put(calls, c, AtTest);
      Record(v, Mark(c));
    }

    /** Marking the reply, and the question whether it was the last one missing. */
    method MarkStatus(sample: ReplySample) returns (completes: bool)
      requires sample.usable
      modifies this`requestsStatus
      ensures requestsStatus == old(if sample.related in requestsStatus then requestsStatus[sample.related := true]
                                    else requestsStatus)
      ensures completes <==> old(sample.related in requestsStatus && !requestsStatus[sample.related]) &&
                             |requestsStatus| == 4 && forall id :: id in requestsStatus ==> requestsStatus[id]
    {
      if sample.related in requestsStatus {
        if !requestsStatus[sample.related] {
          requestsStatus := requestsStatus[sample.related := true];
        } else {
          return false;
        }
      } else {
        return false;
      }
      completes := false;
      if |requestsStatus| == 4 {
        completes := true;
        var rest := requestsStatus.Keys;
        while rest != {}
          invariant rest <= requestsStatus.Keys
          invariant completes <==> forall id :: id in requestsStatus && id !in rest ==> requestsStatus[id]
        {
          var id :| id in rest;
          completes := completes && requestsStatus[id];
          rest := rest - {id};
        }
      }
    }

    /** One pass of the loop of on_data_available when no other thread interferes. */
    method TakeAndMark(ghost c: nat, sample: ReplySample) returns (open: bool)
      requires Valid() && !stop && Stands(c, AtTake)
      modifies this
      ensures Valid() && open == !stop && Stands(c, if open then AtTake else Over)
      ensures requestsStatus == Marked(old(requestsStatus), sample)
      ensures stop <==> Completes(old(requestsStatus), sample)
    {
      TakeReply(c, sample);
      if sample.usable {
        MarkReply(c, sample);
      }
      open := TestStop(c);
    }

    /** on_data_available when no other thread interferes: it takes samples until one completes the
        replies, which stops the client. */
    method OnDataAvailable(samples: seq<ReplySample>) returns (taken: nat)
      requires Valid()
      modifies this
      ensures Valid()
      ensures (old(stop) ==> taken == 0) && (taken == 0 ==> stop == old(stop))
      ensures taken <= |samples| && (taken < |samples| ==> stop)
      ensures requestsStatus == AllMarked(old(requestsStatus), samples[..taken])
      ensures forall n :: 0 <= n < taken ==>
                (CompletesAt(old(requestsStatus), samples, n) <==> stop && n == taken - 1)
    {
      ghost var c := EnterDataAvailable();
      taken := 0;
      var open := TestStop(c);
      while open && taken < |samples|
        invariant Valid() && taken <= |samples| && open == !stop
        invariant Stands(c, if open then AtTake else Over)
        invariant (old(stop) ==> taken == 0) && (taken == 0 ==> stop == old(stop))
        invariant requestsStatus == AllMarked(old(requestsStatus), samples[..taken])
        invariant forall n :: 0 <= n < taken ==>
                    (CompletesAt(old(requestsStatus), samples, n) <==> stop && n == taken - 1)
        decreases |samples| - taken
      {
        OneMoreMarked(old(requestsStatus), samples, taken);
        open := TakeAndMark(c, samples[taken]);
        taken := taken + 1;
      }
      if open {
        FindNoReply(c);
      }
    }
  }

  function Sends(outcomes: seq<WriteOutcome>, n: nat): seq<Action>
    requires n <= |outcomes|
  {
    if n == 0 then [] else Sends(outcomes, n - 1) + [Send(outcomes[n - 1])]
  }

  function AllMarked(m: StatusMap, samples: seq<ReplySample>): StatusMap
  {
    if samples == [] then m else Marked(AllMarked(m, samples[..|samples| - 1]), samples[|samples| - 1])
  }

  /** Sample number n is the last reply missing: after it four requests are recorded, all with a reply. */
  predicate CompletesAt(m: StatusMap, samples: seq<ReplySample>, n: nat)
    requires n < |samples|
  {
    var before, after, id := AllMarked(m, samples[..n]), AllMarked(m, samples[..n + 1]), samples[n].related;
    samples[n].usable && id in before && !before[id] && |after| == 4 && forall i :: i in after ==> after[i]
  }

  lemma OneMoreMarked(m: StatusMap, samples: seq<ReplySample>, n: nat)
    requires n < |samples|
    ensures AllMarked(m, samples[..n + 1]) == Marked(AllMarked(m, samples[..n]), samples[n])
    ensures CompletesAt(m, samples, n) <==> Completes(AllMarked(m, samples[..n]), samples[n])
  {
    assert samples[..n + 1][..n] == samples[..n];
  }

  /** What all the samples of a call mark. */
  lemma {:induction false} MarksExactly(m: StatusMap, samples: seq<ReplySample>)
    ensures AllMarked(m, samples).Keys == m.Keys
    ensures forall id :: id in m ==>
              (AllMarked(m, samples)[id] <==>
                 m[id] || exists i :: 0 <= i < |samples| && samples[i].usable && samples[i].related == id)
    decreases |samples|
  {
    if samples != [] {
      var n := |samples| - 1;
      MarksExactly(m, samples[..n]);
      assert forall i :: 0 <= i < n ==> samples[..n][i] == samples[i];
      forall id | id in m
        ensures AllMarked(m, samples)[id] <==>
                  m[id] || exists i :: 0 <= i < |samples| && samples[i].usable && samples[i].related == id
      {
        if AllMarked(m, samples)[id] && !AllMarked(m, samples[..n])[id] {
          assert samples[n].usable && samples[n].related == id;
        }
      }
    }
  }

  // ---------- After stop ----------

  function IsMarkOf(i: nat): Action -> bool
  {
    (a: Action) => a == Mark(i)
  }

  /** stop does not wait for calls that are past their test: each of them may still mark one reply. */
  lemma {:induction false} MarksAfterStop(c: Client, actions: seq<Action>, i: nat)
    requires Histories.Lawful(CLIENT, c, actions) && c.stopped
    ensures Count(actions, IsMarkOf(i)) <= if i < |c.calls| && c.calls[i].InFlight() then 1 else 0
    decreases |actions|
  {
    if actions != [] {
      var d := Act(c, actions[0]);
      MarksAfterStop(d, actions[1..], i);
      assert d.stopped;
      assert IsMarkOf(i)(actions[0]) ==> c.calls[i].InFlight() && !d.calls[i].InFlight();
    }
  }

  // ---------- Every client ----------

  /** The reply was taken by some call. */
  predicate WasTaken(history: seq<Action>, sample: ReplySample)
  {
    exists k :: 0 <= k < |history| && history[k].Take? && history[k].sample == sample
  }

  /** What is marked was reported, what is reported or held was taken and is usable, and the
      callback stops the client for good. */
  ghost predicate Honest(history: seq<Action>, c: Client)
  {
    && (forall id :: id in c.status && c.status[id] ==>
          exists k :: 0 <= k < |c.reported| && c.reported[k].related == id)
    && (forall k :: 0 <= k < |c.reported| ==> c.reported[k].usable && WasTaken(history, c.reported[k]))
    && (forall i :: 0 <= i < |c.calls| && c.calls[i].Holding? ==>
          c.calls[i].item.usable && WasTaken(history, c.calls[i].item))
    && (c.byCallback ==> c.stopped)
  }

  lemma TakenStays(history: seq<Action>, a: Action, sample: ReplySample)
    requires WasTaken(history, sample)
    ensures WasTaken(history + [a], sample)
  {
    var k :| 0 <= k < |history| && history[k].Take? && history[k].sample == sample;
    assert (history + [a])[k] == history[k];
  }

  lemma StaysHonest(history: seq<Action>, c: Client, a: Action)
    requires Honest(history, c) && MayAct(c, a)
    ensures Honest(history + [a], Act(c, a))
  {
    var d := Act(c, a);
    forall sample | WasTaken(history, sample)
      ensures WasTaken(history + [a], sample)
    {
      TakenStays(history, a, sample);
    }
    if a.Take? {
      assert (history + [a])[|history|] == a;
    }
    forall id | id in d.status && d.status[id]
      ensures exists k :: 0 <= k < |d.reported| && d.reported[k].related == id
    {
      if id in c.status && c.status[id] {
        var k :| 0 <= k < |c.reported| && c.reported[k].related == id;
        assert d.reported[k] == c.reported[k];
      } else {
        assert d.reported[|c.reported|].related == id;
      }
    }
  }

  lemma {:induction false} HistoryIsHonest(history: seq<Action>)
    requires Histories.Lawful(CLIENT, NEW_CLIENT, history)
    ensures Honest(history, Histories.After(CLIENT, NEW_CLIENT, history))
    decreases |history|
  {
    if history != [] {
      var n := |history| - 1;
      At(CLIENT, NEW_CLIENT, history, n);
      assert history[..n + 1] == history && history == history[..n] + [history[n]];
      HistoryIsHonest(history[..n]);
      StaysHonest(history[..n], Histories.After(CLIENT, NEW_CLIENT, history[..n]), history[n]);
    }
  }

  /** Whatever a client has been through, in whatever order its threads did it. */
  lemma EveryClientIsHonest(client: ClientApp)
    requires client.Valid()
    ensures Honest(client.history, client.View())
  {
    HistoryIsHonest(client.history);
  }
}
