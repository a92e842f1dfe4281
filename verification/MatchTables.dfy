/** The tables in which a server and a client record which endpoints of a peer are matched. */
module MatchTables {

  /** The GUID prefix of a DDS participant. */
  type Guid = nat

  /** A bitset<2>: one bit for each of the two endpoints of a peer. */
  datatype Bits = Bits(first: bool, second: bool) {
    predicate All() { first && second }
    predicate Any() { first || second }
    predicate None() { !Any() }
  }

  type Table = map<Guid, Bits>

  /** The peers whose first endpoint is matched. */
  function Firsts(t: Table): set<Guid>
  {
    set g | g in t && t[g].first
  }

  function Seconds(t: Table): set<Guid>
  {
    set g | g in t && t[g].second
  }

  /** operator[]: a peer without an entry gets one with both bits clear. */
  function Entry(t: Table, g: Guid): Bits
  {
    if g in t then t[g] else Bits(false, false)
  }

  function Assign(s: set<Guid>, g: Guid, status: bool): set<Guid>
  {
    if status then s + {g} else s - {g}
  }

  class RemoteClientMatchedStatus {
    var matchedStatus: Table

    /** The clients whose request writer is matched. */
    function RequestWriters(): set<Guid>
      reads this
    {
      Firsts(matchedStatus)
    }

    /** The clients whose reply reader is matched. */
    function ReplyReaders(): set<Guid>
      reads this
    {
      Seconds(matchedStatus)
    }

    constructor ()
      ensures RequestWriters() == {} && ReplyReaders() == {}
    {
      matchedStatus := map[];
    }

    method MatchRequestWriter(guid: Guid, status: bool)
      modifies this
      ensures RequestWriters() == if status then old(RequestWriters()) + {guid} else old(RequestWriters()) - {guid}
      ensures ReplyReaders() == old(ReplyReaders())
    {
      matchedStatus := matchedStatus[guid := Entry(matchedStatus, guid).(first := status)];
    }

    method MatchReplyReader(guid: Guid, status: bool)
      modifies this
      ensures ReplyReaders() == if status then old(ReplyReaders()) + {guid} else old(ReplyReaders()) - {guid}
      ensures RequestWriters() == old(RequestWriters())
    {
      matchedStatus := matchedStatus[guid := Entry(matchedStatus, guid).(second := status)];
    }

    method IsMatched(guid: Guid) returns (matched: bool)
      ensures matched <==> guid in RequestWriters() && guid in ReplyReaders()
    {
      matched := false;
      if guid in matchedStatus {
        matched := matchedStatus[guid].All();
      }
    }

    /** Despite its name the result is true when the client has some matched endpoint; the
        only caller negates it. */
    method IsFullyUnmatched(guid: Guid) returns (unmatched: bool)
      ensures unmatched <==> guid in RequestWriters() || guid in ReplyReaders()
    {
      unmatched := false;
      if guid in matchedStatus {
        unmatched := !matchedStatus[guid].None();
      }
    }

    method NoClientMatched() returns (none: bool)
      ensures none <==> RequestWriters() == {} && ReplyReaders() == {}
    {
      none := true;
      var rest := matchedStatus.Keys;
      while rest != {}
        invariant rest <= matchedStatus.Keys
        invariant none ==> forall g :: g in matchedStatus && g !in rest ==> matchedStatus[g].None()
        invariant none
      {
        var g :| g in rest;
        if matchedStatus[g].Any() {
          none := false;
          assert g in RequestWriters() || g in ReplyReaders();
          break;
        }
        rest := rest - {g};
      }
    }

    method Clear()
      modifies this
      ensures RequestWriters() == {} && ReplyReaders() == {}
    {
      matchedStatus := map[];
    }
  }

  class RemoteServerMatchedStatus {
    var matchedStatus: Table

    /** The servers whose request reader is matched. */
    function RequestReaders(): set<Guid>
      reads this
    {
      Firsts(matchedStatus)
    }

    /** The servers whose reply writer is matched. */
    function ReplyWriters(): set<Guid>
      reads this
    {
      Seconds(matchedStatus)
    }

    constructor ()
      ensures RequestReaders() == {} && ReplyWriters() == {}
    {
      matchedStatus := map[];
    }

    method MatchRequestReader(guid: Guid, status: bool)
      modifies this
      ensures RequestReaders() == if status then old(RequestReaders()) + {guid} else old(RequestReaders()) - {guid}
      ensures ReplyWriters() == old(ReplyWriters())
    {
      matchedStatus := matchedStatus[guid := Entry(matchedStatus, guid).(first := status)];
    }

    method MatchReplyWriter(guid: Guid, status: bool)
      modifies this
      ensures ReplyWriters() == if status then old(ReplyWriters()) + {guid} else old(ReplyWriters()) - {guid}
      ensures RequestReaders() == old(RequestReaders())
    {
      matchedStatus := matchedStatus[guid := Entry(matchedStatus, guid).(second := status)];
    }

    method IsMatched(guid: Guid) returns (matched: bool)
      ensures matched <==> guid in RequestReaders() && guid in ReplyWriters()
    {
      matched := false;
      if guid in matchedStatus {
        matched := matchedStatus[guid].All();
      }
    }

    method IsAnyServerMatched() returns (any: bool)
      ensures any <==> RequestReaders() * ReplyWriters() != {}
    {
      any := false;
      var rest := matchedStatus.Keys;
      while rest != {}
        invariant rest <= matchedStatus.Keys
        invariant !any && forall g :: g in matchedStatus && g !in rest ==> !matchedStatus[g].All()
      {
        var g :| g in rest;
        if matchedStatus[g].All() {
          any := true;
          assert g in RequestReaders() * ReplyWriters();
          break;
        }
        rest := rest - {g};
      }
    }

    method Clear()
      modifies this
      ensures RequestReaders() == {} && ReplyWriters() == {}
    {
      matchedStatus := map[];
    }
  }
}
