/** The server of the request/reply service: DDS callbacks push requests into a queue and
    update the match table; one reply thread processes one request per iteration. Most methods are
    one critical section under mtx_. stop, the tests of the stop flag and taking a sample happen
    outside of it: they are events of their own, so that stop can fall between a test and what
    follows it. A list of events is one interleaving. DDS itself (taking samples, matching,
    whether a write succeeds) is an arbitrary environment. */
module ServerApp {
  import opened Options
  import opened Histories
  import opened Callbacks
  import opened Arithmetic
  import opened Calculator
  import opened MatchTables

  /** The identity DDS gives to a request sample. */
  datatype SampleId = SampleId(writer: Guid, number: int)

  /** The part of SampleInfo the server uses. */
  datatype Info = Info(client: Guid, id: SampleId)

  /** An element of requests_. The shared_ptr is the index of the request object it points to. */
  datatype Entry = Entry(info: Info, cell: nat)

  datatype Reply = Reply(clientId: string, related: SampleId, result: int)

  /** What one take yields; a sample that is not alive or has no valid data is not usable. */
  datatype Sample = Sample(payload: Payload, info: Info, usable: bool)

  /** calls and cells: the calls of on_data_available so far and the request object of each;
      writers, readers: the clients whose request writer or reply reader is matched;
      kept: the history of the reply writer; replying: the reply thread holds mtx_ and has found
      the stop flag clear. */
  datatype State = State(
    requests: seq<Entry>,
    calls: seq<Call<Info>>,
    cells: seq<Payload>,
    writers: set<Guid>,
    readers: set<Guid>,
    kept: seq<Reply>,
    stopped: bool,
    replying: bool)
  {
    predicate Matched(g: Guid) { g in writers && g in readers }
    predicate Gone(g: Guid) { g !in writers && g !in readers }
    predicate NoClient() { writers == {} && readers == {} }
    predicate Stands(cell: nat, call: Call<Info>) { cell < |calls| && calls[cell] == call }
  }

  const EMPTY_REQUEST := Payload("", Addition, 0, 0)
  const INITIAL := State([], [], [], {}, {}, [], false, false)

  datatype Event =
    | Entered                                                // on_data_available allocates its request object
    | Passed(cell: nat)                                      // it finds the stop flag clear
    | Took(cell: nat, payload: Payload, info: Option<Info>)  // one sample read into the object, to be pushed if usable
    | Queued(entry: Entry)                                   // the request pushed
    | Returned(cell: nat)                                    // no sample, or the stop flag is set
    | WriterChanged(client: Guid, status: bool)
    | ReaderChanged(client: Guid, status: bool)
    | ClientLost(client: Guid)
    | Committed                                              // the reply thread finds the stop flag clear
    | Dropped(entry: Entry)                                  // an iteration that forgets the request
    | Requeued(entry: Entry, written: bool)                  // written: a reply was written but failed
    | Answered(entry: Entry, reply: Reply)
    | Stopped
    | Nothing

  predicate IsIteration(e: Event)
  {
    e.Dropped? || e.Requeued? || e.Answered?
  }

  function Apply(s: State, e: Event): State
  {
    match e
    case Entered => s.(calls := s.calls + [AtTest], cells := s.cells + [EMPTY_REQUEST])
    case Passed(cell) => s.(calls := Put(s.calls, cell, AtTake))
    case Took(cell, payload, info) =>
      s.(calls := Put(s.calls, cell, if info.Some? then Holding(info.value) else AtTest),
         cells := Put(s.cells, cell, payload))
    case Queued(entry) => s.(calls := Put(s.calls, entry.cell, AtTest), requests := s.requests + [entry])
    case Returned(cell) => s.(calls := Put(s.calls, cell, Over))
    case WriterChanged(g, status) => Forgets(s.(writers := Assign(s.writers, g, status)), !status)
    case ReaderChanged(g, status) => Forgets(s.(readers := Assign(s.readers, g, status)), !status)
    case ClientLost(g) => s.(writers := s.writers - {g}, readers := s.readers - {g})
    case Committed => s.(replying := true)
    case Dropped(_) => s.(requests := Rest(s.requests), replying := false)
    case Requeued(entry, _) => s.(requests := Rest(s.requests) + [entry], replying := false)
    case Answered(_, reply) => s.(requests := Rest(s.requests), kept := s.kept + [reply], replying := false)
    case Stopped => s.(stopped := true)
    case Nothing => s
  }

  /** After an unmatch the old replies are removed when no client is left. */
  function Forgets(s: State, unmatched: bool): State
  {
    if unmatched && s.NoClient() then s.(kept := []) else s
  }

  function Rest(q: seq<Entry>): seq<Entry>
  {
    if q == [] then [] else q[1..]
  }

  /** The reply to an entry if it is processed now: it is computed from the present contents of
      the request object the entry points to. */
  function ReplyNow(s: State, entry: Entry): Option<Reply>
  {
    if entry.cell < |s.cells| && Exact(s.cells[entry.cell]).Some? then
      Some(Reply(s.cells[entry.cell].clientId, entry.info.id, Exact(s.cells[entry.cell]).value))
    else None
  }

  /** The critical sections other than the reply thread's need mtx_ to be free. */
  predicate Allowed(s: State, e: Event)
  {
    match e
    case Entered => true
    case Passed(cell) => !s.stopped && s.Stands(cell, AtTest)
    case Took(cell, _, _) => s.Stands(cell, AtTake)
    case Queued(entry) => !s.replying && s.Stands(entry.cell, Holding(entry.info))
    case Returned(cell) => s.Stands(cell, AtTake) || (s.stopped && s.Stands(cell, AtTest))
    case WriterChanged(_, _) => !s.replying
    case ReaderChanged(_, _) => !s.replying
    case ClientLost(_) => !s.replying
    case Committed => !s.replying && !s.stopped && s.requests != []
    case Dropped(entry) =>
      && Processes(s, entry)
      && (s.Gone(entry.info.client) || (s.Matched(entry.info.client) && ReplyNow(s, entry).None?))
    case Requeued(entry, written) =>
      && Processes(s, entry)
      && !s.Gone(entry.info.client)
      && (written <==> s.Matched(entry.info.client))
      && (written ==> ReplyNow(s, entry).Some?)
    case Answered(entry, reply) =>
      && Processes(s, entry)
      && s.Matched(entry.info.client)
      && ReplyNow(s, entry) == Some(reply)
    case Stopped => true
    case Nothing => true
  }

  /** The reply thread is in an iteration, for the first request. */
  predicate Processes(s: State, entry: Entry)
  {
    s.replying && s.requests != [] && s.requests[0] == entry
  }

  /** Every call has its request object, and the queue points only to those. */
  predicate WellFormed(s: State)
  {
    && |s.calls| == |s.cells|
    && (forall i :: 0 <= i < |s.requests| ==> s.requests[i].cell < |s.cells|)
    && (s.replying ==> s.requests != [])
  }

  const SERVER: Machine<State, Event> := Machine(Allowed, Apply)

  function After(s: State, es: seq<Event>): State
  {
    Histories.After(SERVER, s, es)
  }

  predicate Lawful(s: State, es: seq<Event>)
  {
    Histories.Lawful(SERVER, s, es)
  }

  datatype Status = Discovered | ChangedQos | Removed | DroppedOut | Ignored
  datatype Kind = ServerKind | ClientKind | UndefinedKind

  class ServerApp {
    var requests: seq<Entry>
    var cells: seq<Payload>
    const clientMatchedStatus: RemoteClientMatchedStatus
    var kept: seq<Reply>
    var stop: bool
    ghost var calls: seq<Call<Info>>        // where the threads stand
    ghost var replying: bool
    ghost var history: seq<Event>

    ghost function View(): State
      reads this, clientMatchedStatus
    {
      State(requests, calls, cells, clientMatchedStatus.RequestWriters(), clientMatchedStatus.ReplyReaders(),
            kept, stop, replying)
    }

    ghost predicate Valid()
      reads this, clientMatchedStatus
    {
      WellFormed(View()) && Recorded(SERVER, INITIAL, history, View())
    }

    /** Where a call of on_data_available stands. */
    ghost predicate Stands(cell: nat, call: Call<Info>)
      reads this`calls
    {
      cell < |calls| && calls[cell] == call
    }

    /** The call was one event. */
    twostate predicate Did(e: Event)
      reads this, clientMatchedStatus
    {
      history == old(history) + [e] && Does(SERVER, old(View()), e, View())
    }

    constructor ()
      ensures Valid() && View() == INITIAL && history == [] && fresh(clientMatchedStatus)
    {
      requests, cells, kept, stop := [], [], [], false;
      calls, replying, history := [], false, [];
      clientMatchedStatus := new RemoteClientMatchedStatus();
    }

    /** The end of a method that took the server from s on by the event e. */
    ghost method Record(s: State, e: Event)
      requires Recorded(SERVER, INITIAL, history, s) && Allowed(s, e) && View() == Apply(s, e)
      modifies this`history
      ensures history == old(history) + [e] && Recorded(SERVER, INITIAL, history, View())
    {
      RecordNext(SERVER, INITIAL, history, s, e);
      history := history + [e];
    }

    /** stop takes no lock. */
    method Stop()
      requires Valid()
      modifies this
      ensures Valid() && Did(Stopped) && stop && requests == old(requests) && kept == old(kept)
    {
      ghost var s := View();
      stop := true;
      Record(s, Stopped);
    }

    method OnParticipantDiscovery(remote: Guid, status: Status, userData: seq<Kind>) returns (shouldBeIgnored: bool)
      requires Valid() && !replying
      modifies this, clientMatchedStatus
      ensures Valid()
      ensures shouldBeIgnored <==> userData != [ClientKind]
      ensures Did(if !shouldBeIgnored && status in {Removed, DroppedOut} then ClientLost(remote) else Nothing)
      ensures var lost := if !shouldBeIgnored && status in {Removed, DroppedOut} then {remote} else {};
              && clientMatchedStatus.RequestWriters() == old(clientMatchedStatus.RequestWriters()) - lost
              && clientMatchedStatus.ReplyReaders() == old(clientMatchedStatus.ReplyReaders()) - lost
              && kept == old(kept)
    {
      ghost var s := View();
      shouldBeIgnored := false;
      if |userData| != 1 {
        shouldBeIgnored := true;
      }
      if !shouldBeIgnored {
        if userData[0] != ClientKind {
          shouldBeIgnored := true;
        }
      }
      if !shouldBeIgnored {
        if status == Removed || status == DroppedOut {
          clientMatchedStatus.MatchReplyReader(remote, false);
          clientMatchedStatus.MatchRequestWriter(remote, false);
        }
      }
      Record(s, if !shouldBeIgnored && status in {Removed, DroppedOut} then ClientLost(remote) else Nothing);
    }

    method OnPublicationMatched(client: Guid, change: int)
      requires Valid() && !replying
      modifies this, clientMatchedStatus
      ensures Valid()
      ensures Did(if change in {1, -1} then ReaderChanged(client, change == 1) else Nothing)
      ensures clientMatchedStatus.RequestWriters() == old(clientMatchedStatus.RequestWriters())
      ensures var readers := old(clientMatchedStatus.ReplyReaders());
              clientMatchedStatus.ReplyReaders() ==
                if change == 1 then readers + {client} else if change == -1 then readers - {client} else readers
      ensures var nobody := clientMatchedStatus.RequestWriters() == {} && clientMatchedStatus.ReplyReaders() == {};
              kept == if change == -1 && nobody then [] else old(kept)
    {
      ghost var s := View();
      if change == 1 {
        clientMatchedStatus.MatchReplyReader(client, true);
      } else if change == -1 {
        clientMatchedStatus.MatchReplyReader(client, false);
        var none := clientMatchedStatus.NoClientMatched();
        if none {
          kept := [];
        }
      }
      Record(s, if change in {1, -1} then ReaderChanged(client, change == 1) else Nothing);
    }

    method OnSubscriptionMatched(client: Guid, change: int)
      requires Valid() && !replying
      modifies this, clientMatchedStatus
      ensures Valid()
      ensures Did(if change in {1, -1} then WriterChanged(client, change == 1) else Nothing)
      ensures clientMatchedStatus.ReplyReaders() == old(clientMatchedStatus.ReplyReaders())
      ensures var writers := old(clientMatchedStatus.RequestWriters());
              clientMatchedStatus.RequestWriters() ==
                if change == 1 then writers + {client} else if change == -1 then writers - {client} else writers
      ensures var nobody := clientMatchedStatus.RequestWriters() == {} && clientMatchedStatus.ReplyReaders() == {};
              kept == if change == -1 && nobody then [] else old(kept)
    {
      ghost var s := View();
      if change == 1 {
        clientMatchedStatus.MatchRequestWriter(client, true);
      } else if change == -1 {
        clientMatchedStatus.MatchRequestWriter(client, false);
        var none := clientMatchedStatus.NoClientMatched();
        if none {
          kept := [];
        }
      }
      Record(s, if change in {1, -1} then WriterChanged(client, change == 1) else Nothing);
    }

    /** The start of on_data_available: one request object for all samples of the call. */
    method EnterDataAvailable() returns (cell: nat)
      requires Valid()
      modifies this
      ensures Valid() && Did(Entered)
      ensures cell == |old(cells)| && cells == old(cells) + [EMPTY_REQUEST] && requests == old(requests)
    {
      ghost var s := View();
      cell := |cells|;
      cells := cells + [EMPTY_REQUEST];
      calls := calls + [AtTest];
      Record(s, Entered);
    }

    /** The test of its loop, which ends the call when the server is stopped. */
    method TestStop(cell: nat) returns (open: bool)
      requires Valid() && Stands(cell, AtTest)
      modifies this
      ensures Valid() && open == !stop && stop == old(stop)
      ensures Did(if open then Passed(cell) else Returned(cell))
      ensures calls == old(calls)[cell := if open then AtTake else Over] && requests == old(requests)
    {
      ghost var s := View();
      open := !stop;
      calls := Put(calls, cell, if open then AtTake else Over);
      Record(s, if open then Passed(cell) else Returned(cell));
    }

    /** A sample is read into the object of the call. This takes no lock, and the server may have
        been stopped since the test. */
    method TakeSample(cell: nat, sample: Sample)
      requires Valid() && Stands(cell, AtTake)
      modifies this
      ensures Valid()
      ensures Did(Took(cell, sample.payload, if sample.usable then Some(sample.info) else None))
      ensures cells == old(cells)[cell := sample.payload] && requests == old(requests)
    {
      ghost var s, info := View(), if sample.usable then Some(sample.info) else None;
      cells := cells[cell := sample.payload];
      calls := Put(calls, cell, if info.Some? then Holding(info.value) else AtTest);
      Record(s, Took(cell, sample.payload, info));
    }

    /** There is no sample to take. */
    ghost method FindNoSample(cell: nat)
      requires Valid() && Stands(cell, AtTake)
      modifies this
      ensures Valid() && Did(Returned(cell))
    {
      var s := View();
      calls := Put(calls, cell, Over);
      Record(s, Returned(cell));
    }

    /** The critical section of on_data_available. */
    method PushRequest(cell: nat, info: Info)
      requires Valid() && !replying && Stands(cell, Holding(info))
      modifies this
      ensures Valid() && Did(Queued(Entry(info, cell)))
      ensures requests == old(requests) + [Entry(info, cell)] && cells == old(cells)
    {
      ghost var s := View();
      requests := requests + [Entry(info, cell)];
      calls := Put(calls, cell, AtTest);
      Record(s, Queued(Entry(info, cell)));
    }

    /** One pass of the loop of on_data_available when no other thread interferes. */
    method TakeAndPush(cell: nat, sample: Sample) returns (open: bool)
      requires Valid() && !replying && Stands(cell, AtTake)
      modifies this
      ensures Valid() && !replying && stop == old(stop)
      ensures open == !stop && Stands(cell, if open then AtTake else Over)
      ensures requests == old(requests) + if sample.usable then [Entry(sample.info, cell)] else []
      ensures cells == old(cells)[cell := sample.payload]
    {
      TakeSample(cell, sample);
      if sample.usable {
        PushRequest(cell, sample.info);
      }
      open := TestStop(cell);
    }

    /** on_data_available when no other thread interferes. */
    method OnDataAvailable(samples: seq<Sample>)
      requires Valid() && !replying
      modifies this
      ensures Valid() && !replying && stop == old(stop)
      ensures requests == old(requests) + if stop then [] else Pushes(samples, |old(cells)|)
      ensures cells == old(cells) + [Held(samples, if stop then 0 else |samples|)]
    {
      var cell := EnterDataAvailable();
      var open := TestStop(cell);
      if open {
        TakeAll(cell, samples);
      }
    }

    /** The loop of on_data_available, past its first test, when no other thread interferes. */
    method TakeAll(cell: nat, samples: seq<Sample>)
      requires Valid() && !replying && !stop && Stands(cell, AtTake) && cells[cell] == EMPTY_REQUEST
      modifies this
      ensures Valid() && !replying && !stop
      ensures requests == old(requests) + Pushes(samples, cell)
      ensures cells == old(cells)[cell := Held(samples, |samples|)]
    {
      var i, open := 0, true;
      while open && i < |samples|
        invariant Valid() && !replying && !stop && open && i <= |samples| && Stands(cell, AtTake)
        invariant requests == old(requests) + Pushes(samples[..i], cell)
        invariant cells == old(cells)[cell := Held(samples, i)]
        decreases |samples| - i
      {
        open := TakeAndPush(cell, samples[i]);
        PushesOneMore(samples, i, cell);
        i := i + 1;
      }
      FindNoSample(cell);
      assert samples[..|samples|] == samples;
    }

    /** The start of an iteration of reply_routine, once its wait is over: the test of the stop flag
        under mtx_, which stays locked when the iteration goes on. */
    method BeginIteration() returns (go: bool)
      requires Valid() && !replying && (stop || requests != [])
      modifies this
      ensures Valid() && go == !stop
      ensures Did(if go then Committed else Nothing)
      ensures replying == go && requests == old(requests) && stop == old(stop)
    {
      ghost var s := View();
      go := !stop;
      replying := go;
      Record(s, if go then Committed else Nothing);
    }

    /** The rest of the iteration. The server may have been stopped since the test. */
    method ReplyIteration(writeSucceeds: bool) returns (e: Event)
      requires Valid() && replying
      modifies this
      ensures Valid() && !replying
      ensures IsIteration(e) && Did(e)
      ensures var p := old(cells[requests[0].cell]);
              var client := old(requests[0]).info.client;
              var writer := client in old(clientMatchedStatus.RequestWriters());
              var reader := client in old(clientMatchedStatus.ReplyReaders());
              var malformed := p.operation.Unknown? || (p.operation.Division? && p.y == 0);
        && (e.Dropped? <==> (!writer && !reader) || (writer && reader && malformed))
        && (e.Requeued? <==> writer != reader || (writer && reader && !malformed && !writeSucceeds))
        && (e.Answered? <==> writer && reader && !malformed && writeSucceeds)
        && (e.Answered? ==> e.reply == Reply(p.clientId, old(requests[0]).info.id, e.reply.result))
        && (e.Answered? && p.operation.Addition? ==> e.reply.result == p.x as int + p.y as int)
        && (e.Answered? && p.operation.Subtraction? ==> e.reply.result == p.x as int - p.y as int)
        && (e.Answered? && p.operation.Multiplication? ==> e.reply.result == p.x as int * p.y as int)
        && (e.Answered? && p.operation.Division? ==> RoundsTowardZero(p.x as int, p.y as int, e.reply.result))
      ensures requests == old(requests[1..]) + if e.Requeued? then [old(requests[0])] else []
      ensures kept == old(kept) + if e.Answered? then [e.reply] else []
    {
      ghost var s := View();
      e := ProcessRequest(writeSucceeds);
      ghost var p := s.cells[s.requests[0].cell];
      ExactIsExplicit(p);
      Record(s, e);
    }

    method ProcessRequest(writeSucceeds: bool) returns (e: Event)
      requires WellFormed(View()) && replying
      modifies this`requests, this`kept, this`replying
      ensures WellFormed(View())
      ensures IsIteration(e) && Does(SERVER, old(View()), e, View())
      ensures e.Requeued? && e.written ==> !writeSucceeds
      ensures e.Answered? ==> writeSucceeds
    {
      ghost var s := View();
      replying := false;
      var request := requests[0];
      requests := requests[1..];
      var client := request.info.client;
      var reachable := clientMatchedStatus.IsFullyUnmatched(client);
      if !reachable {
        return Dropped(request);
      }
      var matched := clientMatchedStatus.IsMatched(client);
      if !matched {
        requests := requests + [request];
        return Requeued(request, false);
      }
      e := AnswerRequest(request, writeSucceeds, s);
    }

    /** The part of the iteration for a request of a matched client; s is the state before it. */
    method AnswerRequest(request: Entry, writeSucceeds: bool, ghost s: State) returns (e: Event)
      requires WellFormed(s) && Processes(s, request) && s.Matched(request.info.client)
      requires View() == s.(requests := Rest(s.requests), replying := false)
      modifies this`requests, this`kept
      ensures WellFormed(View()) && IsIteration(e) && Does(SERVER, s, e, View())
      ensures e.Requeued? ==> !writeSucceeds
      ensures e.Answered? ==> writeSucceeds
    {
      var reply := PrepareReply(request);
      if reply.None? {
        return Dropped(request);
      }
      if !writeSucceeds {
        requests := requests + [request];
        return Requeued(request, true);
      }
      kept := kept + [reply.value];
      return Answered(request, reply.value);
    }

    /** The calculation, and the reply it leads to. */
    method PrepareReply(request: Entry) returns (reply: Option<Reply>)
      requires request.cell < |cells|
      ensures reply == ReplyNow(View(), request)
    {
      var success, result := Calculate(cells[request.cell], 0);
      reply := if success then Some(Reply(cells[request.cell].clientId, request.info.id, result as int)) else None;
    }
  }

  /** The entries pushed for a list of samples read into one object. */
  function Pushes(samples: seq<Sample>, cell: nat): seq<Entry>
  {
    if samples == [] then []
    else
      var n := |samples| - 1;
      Pushes(samples[..n], cell) + if samples[n].usable then [Entry(samples[n].info, cell)] else []
  }

  /** Pushed are exactly the requests of the usable samples, with the object of the call. */
  lemma {:induction false} PushesExactly(samples: seq<Sample>, cell: nat, entry: Entry)
    ensures entry in Pushes(samples, cell) <==>
              exists i :: 0 <= i < |samples| && samples[i].usable && entry == Entry(samples[i].info, cell)
    decreases |samples|
  {
    if samples != [] {
      var n := |samples| - 1;
      PushesExactly(samples[..n], cell, entry);
      assert forall i :: 0 <= i < n ==> samples[..n][i] == samples[i];
    }
  }

  /** What the object of a call holds after i samples. */
  function Held(samples: seq<Sample>, i: nat): Payload
    requires i <= |samples|
  {
    if i == 0 then EMPTY_REQUEST else samples[i - 1].payload
  }

  lemma PushesOneMore(samples: seq<Sample>, i: nat, cell: nat)
    requires i < |samples|
    ensures Pushes(samples[..i + 1], cell) ==
            Pushes(samples[..i], cell) + if samples[i].usable then [Entry(samples[i].info, cell)] else []
  {
    assert samples[..i + 1][..i] == samples[..i];
  }
}
