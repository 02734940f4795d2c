/** The remote client as it is written: calls that write requests and block in loops until a packet that
    is no event arrives. Every call is proved to do what the client's state machine does on the packets
    that arrive during it, however many events lie between the replies. */
module MixerClient {
  import opened Basics
  import opened MixerCache
  import opened MixerDaemon
  import opened MixerProtocol

  // ---------------------------------------------------------------- the state machine at work

  /** What the state machine makes of packets: where it stands, what it asked, what it left unread, and the
      code of the call if it ended. */
  datatype Attended = Attended(client: Client, asks: seq<Request>, rest: seq<Packet>, code: Option<int>)

  /** Earlier requests, and a code if the call ended by then. */
  function Earlier(a: Attended, asks: seq<Request>, code: Option<int>): Attended {
    a.(asks := asks + a.asks, code := if code.Some? then code else a.code)
  }

  function Attend(c: Client, q: seq<Packet>): (a: Attended)
    requires c.Valid()
    ensures a.client.Valid()
    decreases q
  {
    if q == [] || !c.phase.Blocked() then Attended(c, [], q, None)
    else if q[0].unsolicited && !c.phase.Welcoming? then Attend(HandleEvent(c, q[0]), q[1..])
    else
      var r := Hear(c, q[0]);
      Earlier(Attend(r.client, q[1..]), r.asks, CodeOf(c.phase, q[0]))
  }

  /** What ends the wait for a reply: the reply, an event that is none, or nothing. */
  datatype Next = Reply(packet: Packet, rest: seq<Packet>) | BadEvent(rest: seq<Packet>) | Nothing

  function NextReply(q: seq<Packet>): Next
    decreases q
  {
    if q == [] then Nothing
    else if !q[0].unsolicited then Reply(q[0], q[1..])
    else if GoodEvent(q[0]) then NextReply(q[1..])
    else BadEvent(q[1..])
  }

  /** A blocked client ignores good events, and then hears the reply. */
  lemma {:induction false} AttendReply(c: Client, q: seq<Packet>)
    requires c.Valid() && c.phase.Blocked() && !c.phase.Welcoming?
    ensures Attend(c, q) == match NextReply(q)
      case Reply(p, rest) => (var r := Hear(c, p); Earlier(Attend(r.client, rest), r.asks, CodeOf(c.phase, p)))
      case BadEvent(rest) => Attended(c.(phase := Dead), [], rest, None)
      case Nothing => Attended(c, [], [], None)
    decreases q
  {
    if q != [] && q[0].unsolicited && GoodEvent(q[0]) {
      AttendReply(c, q[1..]);
    }
  }

  /** The snapshot with which an open call ends well, and the client that hears it. */
  function SnapshotOf(c: Client, q: seq<Packet>): (r: Option<(Client, Packet)>)
    requires c.Valid()
    ensures r.Some? ==> r.value.0.Valid() && r.value.0.phase.Snapshotting? && r.value.1 in q && r.value.1.cmd >= 0
    decreases q
  {
    if q == [] || !c.phase.Blocked() then None
    else if q[0].unsolicited && !c.phase.Welcoming? then SnapshotOf(HandleEvent(c, q[0]), q[1..])
    else if c.phase.Snapshotting? && q[0].cmd >= 0 then Some((c, q[0]))
    else SnapshotOf(Hear(c, q[0]).client, q[1..])
  }

  /** In an open call. */
  predicate Opens(phase: Phase, mixer: nat) {
    (phase.Opening? || phase.Counting? || phase.Loading? || phase.Snapshotting?) && phase.mixer == mixer
  }

  /** An open call returns 0 exactly when it has heard a snapshot, whose values are then stored. */
  lemma {:induction false} OpenReturns(c: Client, q: seq<Packet>, mixer: nat)
    requires c.Valid() && Opens(c.phase, mixer)
    ensures var a := Attend(c, q);
      match SnapshotOf(c, q)
      case Some((c', p)) =>
        && a.code == Some(0)
        && a.client.mixers == if p.payload.Values? then KeepValues(c'.mixers, mixer, p.payload.records) else c'.mixers
      case None => a.code != Some(0)
    decreases q
  {
    if q != [] {
      if q[0].unsolicited {
        if GoodEvent(q[0]) {
          OpenReturns(c, q[1..], mixer);
        } else {
          assert SnapshotOf(HandleEvent(c, q[0]), q[1..]) == None;
          assert Attend(HandleEvent(c, q[0]), q[1..]).code == None;
        }
      } else if Opens(Hear(c, q[0]).client.phase, mixer) {
        OpenReturns(Hear(c, q[0]).client, q[1..], mixer);
      } else {
        var c' := Hear(c, q[0]).client;
        assert SnapshotOf(c', q[1..]) == None && Attend(c', q[1..]).code == None;
      }
    }
  }

  /** From `start` and the packets `q0` the state machine comes to `c` with `q` unread, having asked `asks`; the
      call has ended with `code`, or not yet. */
  ghost predicate Leads(start: Client, q0: seq<Packet>, c: Client, asks: seq<Request>, q: seq<Packet>,
                        code: Option<int>) {
    start.Valid() && c.Valid() && Attend(start, q0) == Earlier(Attend(c, q), asks, code)
  }

  lemma LeadsReply(start: Client, q0: seq<Packet>, c: Client, asks: seq<Request>, q: seq<Packet>)
    requires Leads(start, q0, c, asks, q, None) && c.phase.Blocked() && !c.phase.Welcoming?
    ensures match NextReply(q)
      case Reply(p, rest) =>
        Leads(start, q0, Hear(c, p).client, asks + Hear(c, p).asks, rest, CodeOf(c.phase, p))
      case BadEvent(rest) => Leads(start, q0, c.(phase := Dead), asks, rest, None)
      case Nothing => Leads(start, q0, c, asks, [], None)
  {
    AttendReply(c, q);
    match NextReply(q)
    case Reply(p, rest) =>
      var r := Hear(c, p);
      assert asks + (r.asks + Attend(r.client, rest).asks) == asks + r.asks + Attend(r.client, rest).asks;
    case _ =>
  }

  /** The state machine is done, or waits for packets that have not come. */
  lemma LeadsEnd(start: Client, q0: seq<Packet>, c: Client, asks: seq<Request>, q: seq<Packet>, code: Option<int>)
    requires Leads(start, q0, c, asks, q, code) && (!c.phase.Blocked() || q == [])
    ensures Attend(start, q0) == Attended(c, asks, q, code)
  {
    assert asks + [] == asks;
  }

  /** The system's client reads until it is idle or has read everything. */
  function ReadOn(s: System): (s': System)
    requires s.Valid()
    ensures s'.Valid()
    decreases |s.toClient|
  {
    if s.client.phase.Blocked() && s.toClient != [] then ReadOn(ClientRead(s)) else s
  }

  /** These are the reads of the protocol's runs. */
  lemma {:induction false} ReadsAttend(s: System)
    requires s.Valid()
    ensures var t := ReadOn(s); var a := Attend(s.client, s.toClient);
      t.client == a.client && t.toClient == a.rest && t.toServer == s.toServer + a.asks && t.server == s.server
    decreases |s.toClient|
  {
    if s.client.phase.Blocked() && s.toClient != [] {
      ReadsAttend(ClientRead(s));
    }
  }

  // ---------------------------------------------------------------- the client

  /** How a call ended: with a result, still waiting, or with the end of the process. */
  datatype Result = Returns(code: int) | Waits | Ends {
    function Code(): Option<int> {
      if Returns? then Some(code) else None
    }
  }

  class RemoteMixer {
    /** Packets that have arrived, or will during the call. */
    var incoming: seq<Packet>
    var asked: seq<Request>
    var mixers: map<nat, Mixer>

    ghost predicate Valid()
      reads this
    {
      forall m :: m in mixers ==> mixers[m].Valid()
    }

    ghost function At(phase: Phase): Client
      reads this
    {
      Client(phase, mixers)
    }

    /** The call did what the state machine does: it started from `r`, stands in `phase` now, and has returned
        the code, if any. */
    twostate predicate Did(r: Reaction, phase: Phase, code: Option<int>)
      reads this
      requires r.client.Valid()
    {
      var a := Attend(r.client, old(incoming));
      && Valid() && a.client == At(phase) && a.rest == incoming && asked == old(asked) + r.asks + a.asks
      && a.code == code
    }

    constructor ()
      ensures Valid() && incoming == [] && asked == [] && mixers == map[]
    {
      incoming, asked, mixers := [], [], map[];
    }

    /** The loop of `get_response` and `wait_payload`: packets are read until one is no event. */
    method NextPacket() returns (next: Next)
      modifies this`incoming
      ensures next == NextReply(old(incoming))
      ensures incoming == match next case Reply(_, rest) => rest case BadEvent(rest) => rest case Nothing => []
    {
      while incoming != []
        invariant NextReply(old(incoming)) == NextReply(incoming)
        decreases incoming
      {
        var msg := incoming[0];
        incoming := incoming[1..];
        if !msg.unsolicited {
          return Reply(msg, incoming);
        }
        if !GoodEvent(msg) {
          return BadEvent(incoming);
        }
      }
      return Nothing;
    }

    method SendRequestNoReply(r: Request)
      modifies this`asked
      ensures asked == old(asked) + [r]
    {
      asked := asked + [r];
    }

    method SendRequest(r: Request) returns (next: Next)
      modifies this`asked, this`incoming
      ensures asked == old(asked) + [r] && next == NextReply(old(incoming))
      ensures incoming == match next case Reply(_, rest) => rest case BadEvent(rest) => rest case Nothing => []
    {
      SendRequestNoReply(r);
      next := NextPacket();
    }

    /** What a call with one request and one reply ends with. */
    method Finish(next: Next) returns (result: Result)
      ensures result == match next case Reply(p, _) => Returns(p.cmd) case BadEvent(_) => Ends case Nothing => Waits
    {
      match next
      case Reply(p, _) => result := Returns(p.cmd);
      case BadEvent(_) => result := Ends;
      case Nothing => result := Waits;
    }

    /** The calls that ask one thing and take one reply: they return what the reply says. */
    method AskFor(r: Request) returns (result: Result)
      requires Valid() && Ask(r).Legal()
      modifies this`asked, this`incoming
      ensures Did(Start(old(At(Idle)), Ask(r)),
                  match result case Returns(_) => Idle case Waits => Waiting(r) case Ends => Dead, result.Code())
      ensures result == match NextReply(old(incoming))
        case Reply(p, _) => Returns(if InfoSize(r).Some? && p.payload.Size() != InfoSize(r).value then -1 else p.cmd)
        case BadEvent(_) => Ends
        case Nothing => Waits
    {
      var next := SendRequest(r);
      ghost var c := At(Waiting(r));
      Begins(c, old(incoming));
      LeadsReply(c, old(incoming), c, [], old(incoming));
      result := Finish(next);
      if next.Reply? && InfoSize(r).Some? && next.packet.payload.Size() != InfoSize(r).value {
        result := Returns(-1);
      }
      LeadsEnd(c, old(incoming),
               At(match result case Returns(_) => Idle case Waits => Waiting(r) case Ends => Dead), [], incoming,
               result.Code());
    }

    /** The calls that are obeyed in silence. */
    method TellTo(r: Request)
      requires Valid() && Tell(r).Legal()
      modifies this`asked
      ensures Did(Start(old(At(Idle)), Tell(r)), Idle, None)
    {
      SendRequestNoReply(r);
    }

    /** The nodes of a batch go into the cache. */
    method AddNodes(mixer: nat, nodes: seq<NodeInfo>)
      requires Valid()
      modifies this`mixers
      ensures Valid() && mixers == KeepNodes(old(mixers), mixer, nodes)
    {
      for i := 0 to |nodes|
        invariant Valid() && KeepNodes(old(mixers), mixer, nodes) == KeepNodes(mixers, mixer, nodes[i..])
      {
        var node := nodes[i];
        assert nodes[i..][0] == node && nodes[i..][1..] == nodes[i + 1..];
        if 0 <= node.ctrl < MAX_TMP_NODES {
          var m := if mixer in mixers then mixers[mixer] else EmptyMixer();
          mixers := mixers[mixer := AddNode(m, node.ctrl, node)];
        }
      }
    }

    /** The values of a snapshot go into the cache. */
    method SetValues(mixer: nat, records: seq<Rec>)
      requires Valid()
      modifies this`mixers
      ensures Valid() && mixers == KeepValues(old(mixers), mixer, records)
    {
      var i := 0;
      while i < |records| && mixer in mixers
        invariant i <= |records| && Valid()
        invariant KeepValues(old(mixers), mixer, records) == KeepValues(mixers, mixer, records[i..])
      {
        var r := records[i];
        assert records[i..][0] == r && records[i..][1..] == records[i + 1..];
        if 0 <= r.node < MAX_TMP_NODES {
          mixers := mixers[mixer := SetValue(mixers[mixer], r.node, r.value)];
        }
        i := i + 1;
      }
    }

    /** The loop over the batches of nodes. */
    method LoadNodes(mixer: nat, nrext: nat, ghost c0: Client, ghost q0: seq<Packet>, ghost asks: seq<Request>)
      returns (result: Result, ghost phase: Phase)
      requires Valid() && mixer < MAX_TMP_MIXER && nrext > 0
      requires Leads(c0, q0, At(Loading(mixer, nrext, nrext)), asks, incoming, None)
      modifies this`incoming, this`mixers
      ensures Valid()
      ensures Stands(result, phase, c0, q0, asks + if result == Returns(0) then [GetAllValues(mixer)] else [],
                     if result == Returns(0) then None else result.Code())
      ensures result == Returns(0) ==> phase == Snapshotting(mixer)
    {
      var left := nrext;
      phase := Loading(mixer, nrext, left);
      while left > 0
        invariant Valid() && phase == if left > 0 then Loading(mixer, nrext, left) else Snapshotting(mixer)
        invariant Leads(c0, q0, At(phase), asks + if left > 0 then [] else [GetAllValues(mixer)], incoming, None)
        decreases left
      {
        var n := if left > MAX_NODES then MAX_NODES else left;
        ghost var c, q := At(phase), incoming;
        assert asks + [] == asks;
        LeadsReply(c0, q0, c, asks, q);
        var next := NextPacket();
        if !next.Reply? || next.packet.payload.Size() != 220 * n || next.packet.cmd < 0 {
          result, phase := Interrupted(next, phase);
          return;
        }
        if next.packet.payload.Nodes? {
          AddNodes(mixer, next.packet.payload.nodes);
        }
        left := left - n;
        phase := if left > 0 then Loading(mixer, nrext, left) else Snapshotting(mixer);
        assert At(phase) == Hear(c, next.packet).client;
      }
      result := Returns(0);
    }

    /** No reply, or one that ends the call with an error. */
    method Interrupted(next: Next, ghost before: Phase) returns (result: Result, ghost phase: Phase)
      ensures result == match next case Reply(_, _) => Returns(-1) case BadEvent(_) => Ends case Nothing => Waits
      ensures phase == match next case Reply(_, _) => Idle case BadEvent(_) => Dead case Nothing => before
    {
      match next
      case Reply(_, _) => result, phase := Returns(-1), Idle;
      case BadEvent(_) => result, phase := Ends, Dead;
      case Nothing => result, phase := Waits, before;
    }

    /** The snapshot, for which one waits last. */
    method FetchValues(mixer: nat, ghost c0: Client, ghost q0: seq<Packet>, ghost asks: seq<Request>)
      returns (result: Result, ghost phase: Phase)
      requires Valid() && mixer < MAX_TMP_MIXER && Leads(c0, q0, At(Snapshotting(mixer)), asks, incoming, None)
      modifies this`incoming, this`mixers
      ensures Valid() && Stands(result, phase, c0, q0, asks, result.Code()) && (result.Returns? ==> phase.Idle?)
      ensures result == Returns(0) <==> NextReply(old(incoming)).Reply? && NextReply(old(incoming)).packet.cmd >= 0
      ensures mixers == if result == Returns(0) && NextReply(old(incoming)).packet.payload.Values?
        then KeepValues(old(mixers), mixer, NextReply(old(incoming)).packet.payload.records) else old(mixers)
    {
      ghost var c, q := At(Snapshotting(mixer)), incoming;
      LeadsReply(c0, q0, c, asks, q);
      assert asks + [] == asks;
      var next := NextPacket();
      if !next.Reply? || next.packet.cmd < 0 {
        result, phase := Interrupted(next, Snapshotting(mixer));
        return;
      }
      if next.packet.payload.Values? {
        SetValues(mixer, next.packet.payload.records);
      }
      result, phase := Returns(0), Idle;
    }

    /** Where the state machine stands when a part of a call is over. */
    ghost predicate Stands(result: Result, phase: Phase, c0: Client, q0: seq<Packet>, asks: seq<Request>,
                           code: Option<int>)
      reads this
    {
      && Leads(c0, q0, At(phase), asks, incoming, code)
      && match result
         case Returns(code) => code != 0 ==> phase.Idle?
         case Waits => phase.Blocked() && incoming == []
         case Ends => phase.Dead?
    }

    /** Opening a mixer: it is opened, its nodes are counted and loaded batch by batch, and all values are
        fetched. `phase` is where the state machine stands. */
    method OpenTheMixer(mixer: nat) returns (result: Result, ghost phase: Phase)
      requires Valid() && mixer < MAX_TMP_MIXER
      modifies this
      ensures Did(Start(old(At(Idle)), Open(mixer)), phase, result.Code())
      ensures match SnapshotOf(old(At(Opening(mixer))), old(incoming))
        case Some((c, p)) =>
          && result == Returns(0)
          && mixers == if p.payload.Values? then KeepValues(c.mixers, mixer, p.payload.records) else c.mixers
        case None => result != Returns(0)
      ensures match result
        case Returns(_) => phase.Idle?
        case Waits => phase.Blocked() && incoming == []
        case Ends => phase.Dead?
    {
      ghost var q0, c0 := incoming, At(Opening(mixer));
      OpenReturns(c0, q0, mixer);
      Begins(c0, q0);
      LeadsReply(c0, q0, c0, [], q0);
      var next := SendRequest(OpenMixer(mixer));
      if !next.Reply? || next.packet.cmd < 0 {
        result, phase := Interrupted(next, Opening(mixer));
        LeadsEnd(c0, q0, At(phase), [], incoming, result.Code());
        return;
      }
      result, phase := CountNodes(mixer, c0, q0, asked);
    }

    /** The number of nodes, and all that follows. */
    method CountNodes(mixer: nat, ghost c0: Client, ghost q0: seq<Packet>, ghost base: seq<Request>)
      returns (result: Result, ghost phase: Phase)
      requires Valid() && mixer < MAX_TMP_MIXER && asked == base
      requires Leads(c0, q0, At(Counting(mixer)), [GetNrext(mixer)], incoming, None)
      modifies this
      ensures var a := Attend(c0, q0);
        && Valid() && a.client == At(phase) && a.rest == incoming && asked == base + a.asks && a.code == result.Code()
      ensures match result
        case Returns(_) => phase.Idle?
        case Waits => phase.Blocked() && incoming == []
        case Ends => phase.Dead?
    {
      LeadsReply(c0, q0, At(Counting(mixer)), [GetNrext(mixer)], incoming);
      var next := SendRequest(GetNrext(mixer));
      if !next.Reply? || next.packet.cmd < 0 {
        result, phase := Interrupted(next, Counting(mixer));
        LeadsEnd(c0, q0, At(phase), [GetNrext(mixer)], incoming, result.Code());
        return;
      }
      result, phase := LoadAll(mixer, next.packet.cmd, c0, q0, base);
    }

    /** The nodes, and then the values. */
    method LoadAll(mixer: nat, nrext: nat, ghost c0: Client, ghost q0: seq<Packet>, ghost base: seq<Request>)
      returns (result: Result, ghost phase: Phase)
      requires Valid() && mixer < MAX_TMP_MIXER && asked == base + [GetNrext(mixer)]
      requires if nrext > 0
        then Leads(c0, q0, At(Loading(mixer, nrext, nrext)),
                   [GetNrext(mixer), GetNodeInfo(mixer, 0, nrext - 1)], incoming, None)
        else Leads(c0, q0, At(Snapshotting(mixer)),
                   [GetNrext(mixer), GetNodeInfo(mixer, 0, -1), GetAllValues(mixer)], incoming, None)
      modifies this
      ensures var a := Attend(c0, q0);
        && Valid() && a.client == At(phase) && a.rest == incoming && asked == base + a.asks && a.code == result.Code()
      ensures match result
        case Returns(_) => phase.Idle?
        case Waits => phase.Blocked() && incoming == []
        case Ends => phase.Dead?
    {
      ghost var asks := [GetNrext(mixer), GetNodeInfo(mixer, 0, nrext - 1)];
      SendRequestNoReply(GetNodeInfo(mixer, 0, nrext - 1));
      if nrext > 0 {
        result, phase := LoadNodes(mixer, nrext, c0, q0, asks);
        if result != Returns(0) {
          assert asks + [] == asks;
          LeadsEnd(c0, q0, At(phase), asks, incoming, result.Code());
          return;
        }
      }
      SendRequestNoReply(GetAllValues(mixer));
      asks := asks + [GetAllValues(mixer)];
      result, phase := FetchValues(mixer, c0, q0, asks);
      LeadsEnd(c0, q0, At(phase), asks, incoming, result.Code());
    }

    /** A node record; of one that is not cached only the failure can be reported, a success ends the process. */
    method GetNode(mixer: nat, node: nat) returns (result: Result, ghost phase: Phase)
      requires Valid() && Node(mixer, node).Legal()
      modifies this`asked, this`incoming
      ensures var r := Start(old(At(Idle)), Node(mixer, node));
        && Did(r, phase, if r.client.phase.Idle? then None else result.Code())
        && (r.client.phase.Idle? ==> result == Returns(0)) && (r.client.phase.Blocked() ==> result != Returns(0))
      ensures match result
        case Returns(_) => phase.Idle?
        case Waits => phase.Blocked() && incoming == []
        case Ends => phase.Dead? || phase.Stopped?
    {
      if mixer in mixers && node < |mixers[mixer].nodes| && mixers[mixer].nodes[node].Some? {
        return Returns(0), Idle;
      }
      ghost var q0, c0 := incoming, At(Waiting(GetNodeInfo(mixer, node, 0)));
      Begins(c0, q0);
      LeadsReply(c0, q0, c0, [], q0);
      var next := SendRequest(GetNodeInfo(mixer, node, 0));
      if !next.Reply? || next.packet.payload.Size() != 220 || next.packet.cmd < 0 {
        result, phase := Interrupted(next, Waiting(GetNodeInfo(mixer, node, 0)));
      } else {
        result, phase := Ends, Stopped;
      }
      LeadsEnd(c0, q0, At(phase), [], incoming, result.Code());
    }

    /** Closing the connection waits for one last reply. */
    method Leave() returns (result: Result, ghost phase: Phase)
      requires Valid()
      modifies this`asked, this`incoming
      ensures Did(Start(old(At(Idle)), Disconnect), phase, result.Code())
      ensures match result
        case Returns(_) => phase.Stopped?
        case Waits => phase.Blocked() && incoming == []
        case Ends => phase.Dead?
    {
      ghost var q0, c0 := incoming, At(Waiting(Exit));
      Begins(c0, q0);
      LeadsReply(c0, q0, c0, [], q0);
      var next := SendRequest(Exit);
      result := match next case Reply(_, _) => Returns(0) case BadEvent(_) => Ends case Nothing => Waits;
      phase := match next case Reply(_, _) => Stopped case BadEvent(_) => Dead case Nothing => Waiting(Exit);
      LeadsEnd(c0, q0, At(phase), [], incoming, result.Code());
    }

    /** Connecting: the welcome, which may be marked as anything, and the reply to the first request. */
    method Connecting() returns (result: Result, ghost phase: Phase)
      requires Valid()
      modifies this`asked, this`incoming
      ensures Did(Reaction(old(At(Welcoming)), []), phase, result.Code())
      ensures match result
        case Returns(_) => phase.Idle? || phase.Stopped?
        case Waits => phase.Blocked() && incoming == []
        case Ends => phase.Dead?
    {
      ghost var q0, c0 := incoming, At(Welcoming);
      if incoming == [] {
        return Waits, Welcoming;
      }
      var msg := incoming[0];
      incoming := incoming[1..];
      if msg.cmd != CMD_OK {
        return Returns(-1), Stopped;
      }
      ghost var c, q := At(Waiting(Init)), incoming;
      Begins(c, q);
      LeadsReply(c, q, c, [], q);
      var next := SendRequest(Init);
      result := Finish(next);
      phase := match next case Reply(_, _) => Idle case BadEvent(_) => Dead case Nothing => Waiting(Init);
      LeadsEnd(c, q, At(phase), [], incoming, result.Code());
    }

    /** A value from the client's own cache, -1 without one. */
    method GetValue(mixer: nat, node: nat) returns (value: int)
      requires Valid() && node < MAX_TMP_NODES
      modifies this`mixers
      ensures Valid() && mixers.Keys == old(mixers.Keys)
      ensures value == if mixer in old(mixers) then old(mixers)[mixer].values[node] else -1
      ensures forall m :: m in mixers ==>
        mixers[m] == if m == mixer then ForgetChange(old(mixers)[m], node) else old(mixers)[m]
    {
      if mixer !in mixers {
        return -1;
      }
      value := mixers[mixer].values[node];
      mixers := mixers[mixer := ForgetChange(mixers[mixer], node)];
    }

    /** One packet between calls, taken for an event. */
    method PollCallback() returns (result: Result)
      requires Valid() && incoming != []
      modifies this`incoming
      ensures incoming == old(incoming)[1..]
      ensures HandleEvent(old(At(Idle)), old(incoming)[0]) == At(if result == Ends then Dead else Idle)
    {
      var msg := incoming[0];
      incoming := incoming[1..];
      result := if GoodEvent(msg) then Returns(0) else Ends;
    }
  }

  lemma Begins(c: Client, q: seq<Packet>)
    requires c.Valid()
    ensures Leads(c, q, c, [], q, None)
  {
    assert [] + Attend(c, q).asks == Attend(c, q).asks;
  }
}
