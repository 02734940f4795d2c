/** The remote mixer protocol: the stock client of libossmix and the daemon, joined by two FIFO
    channels. Packets carry no request number. Every run is a list of steps; a step that is not
    enabled changes nothing. */
module MixerProtocol {
  import opened Basics
  import opened MixerCache
  import opened MixerDaemon

  // ---------------------------------------------------------------- the client

  /** Where the client is: idle, blocked in a library call, or finished. `Loading` still wants
      `left` of the `nrext` node records; `Stopped` is a closed connection or a crashed process, `Dead`
      the exit on a packet that is no event. */
  datatype Phase =
    | Welcoming
    | Idle
    | Waiting(request: Request)
    | Opening(mixer: nat)
    | Counting(mixer: nat)
    | Loading(mixer: nat, nrext: nat, left: nat)
    | Snapshotting(mixer: nat)
    | Stopped
    | Dead
  {
    predicate Blocked() {
      !Idle? && !Stopped? && !Dead?
    }

    /** The request whose answer a blocked client takes the next solicited packet to be. */
    function Pending(): Request
      requires Blocked()
    {
      match this
      case Welcoming => Connect
      case Waiting(r) => r
      case Opening(m) => OpenMixer(m)
      case Counting(m) => GetNrext(m)
      case Loading(m, nrext, _) => GetNodeInfo(m, 0, nrext - 1)
      case Snapshotting(m) => GetAllValues(m)
      case _ => Connect
    }
  }

  datatype Client = Client(phase: Phase, mixers: map<nat, Mixer>) {
    ghost predicate Valid() {
      && (phase.Waiting? && phase.request.GetNodeInfo? ==> phase.request.last == 0)
      && (phase.Opening? || phase.Counting? || phase.Loading? || phase.Snapshotting? ==> phase.mixer < MAX_TMP_MIXER)
      && forall m :: m in mixers ==> mixers[m].Valid()
    }
  }

  /** What the client does with one packet: its new state and the requests it writes. */
  datatype Reaction = Reaction(client: Client, asks: seq<Request>)

  /** The application's calls. `Node` asks for one node record; the library only goes to the network
      for a node it has not cached. */
  datatype Call =
    | Ask(request: Request)
    | Tell(request: Request)
    | Node(mixer: nat, node: nat)
    | Open(mixer: nat)
    | Disconnect
  {
    predicate Legal() {
      match this
      case Ask(r) => r.GetNMixers? || r.GetMixerInfo? || r.GetNrext? || r.GetEnumInfo? || r.GetDescription?
      case Tell(r) => r.InRange() && !r.Answered()
      case Node(m, node) => m < MAX_TMP_MIXER && node < MAX_TMP_NODES
      case Open(m) => m < MAX_TMP_MIXER
      case Disconnect => true
    }
  }

  function Start(c: Client, call: Call): (r: Reaction)
    requires c.Valid() && call.Legal()
    ensures r.client.Valid() && forall ask :: ask in r.asks ==> ask.InRange()
  {
    match call
    case Ask(r) => Reaction(c.(phase := Waiting(r)), [r])
    case Tell(r) => Reaction(c, [r])
    case Node(m, node) =>
      if m in c.mixers && node < |c.mixers[m].nodes| && c.mixers[m].nodes[node].Some? then Reaction(c, [])
      else Reaction(c.(phase := Waiting(GetNodeInfo(m, node, 0))), [GetNodeInfo(m, node, 0)])
    case Open(m) => Reaction(c.(phase := Opening(m)), [OpenMixer(m)])
    case Disconnect => Reaction(c.(phase := Waiting(Exit)), [Exit])
  }

  function KeepNodes(mixers: map<nat, Mixer>, mixer: nat, nodes: seq<NodeInfo>): (r: map<nat, Mixer>)
    requires forall m :: m in mixers ==> mixers[m].Valid()
    ensures forall m :: m in r ==> r[m].Valid()
    decreases nodes
  {
    if nodes == [] then mixers
    else
      var ext := nodes[0];
      if 0 <= ext.ctrl < MAX_TMP_NODES then
        var m := if mixer in mixers then mixers[mixer] else EmptyMixer();
        KeepNodes(mixers[mixer := AddNode(m, ext.ctrl, ext)], mixer, nodes[1..])
      else KeepNodes(mixers, mixer, nodes[1..])
  }

  function KeepValues(mixers: map<nat, Mixer>, mixer: nat, records: seq<Rec>): (r: map<nat, Mixer>)
    requires forall m :: m in mixers ==> mixers[m].Valid()
    ensures forall m :: m in r ==> r[m].Valid()
    decreases records
  {
    if records == [] || mixer !in mixers then mixers
    else if 0 <= records[0].node < MAX_TMP_NODES then
      KeepValues(mixers[mixer := SetValue(mixers[mixer], records[0].node, records[0].value)], mixer, records[1..])
    else KeepValues(mixers, mixer, records[1..])
  }

  /** An event packet goes to the application; a value event must carry all the records it counts. */
  predicate GoodEvent(p: Packet) {
    p.cmd == EVENT_NEWMIXER || (p.cmd == EVENT_VALUE && 8 * p.p1 <= p.payload.Size())
  }

  function HandleEvent(c: Client, p: Packet): Client {
    if GoodEvent(p) then c else c.(phase := Dead)
  }

  /** A blocked client meets the solicited packet `p`. */
  function Hear(c: Client, p: Packet): (r: Reaction)
    requires c.Valid() && c.phase.Blocked()
    ensures r.client.Valid() && forall ask :: ask in r.asks ==> ask.InRange()
  {
    match c.phase
    case Welcoming =>
      if p.cmd == CMD_OK then Reaction(c.(phase := Waiting(Init)), [Init]) else Reaction(c.(phase := Stopped), [])
    case Waiting(Exit) => Reaction(c.(phase := Stopped), [])
    case Waiting(GetNodeInfo(_, _, _)) =>
      // On success the library goes on to store the record through the null pointer it looked up.
      if p.cmd < 0 || p.payload.Size() != 220 then Reaction(c.(phase := Idle), [])
      else Reaction(c.(phase := Stopped), [])
    case Waiting(_) => Reaction(c.(phase := Idle), [])
    case Opening(m) =>
      if p.cmd < 0 then Reaction(c.(phase := Idle), [])
      else Reaction(c.(phase := Counting(m)), [GetNrext(m)])
    case Counting(m) =>
      if p.cmd < 0 then Reaction(c.(phase := Idle), [])
      else if p.cmd == 0 then Reaction(c.(phase := Snapshotting(m)), [GetNodeInfo(m, 0, -1), GetAllValues(m)])
      else Reaction(c.(phase := Loading(m, p.cmd, p.cmd)), [GetNodeInfo(m, 0, p.cmd - 1)])
    case Loading(m, nrext, left) =>
      var n := Min(left, MAX_NODES);
      if p.payload.Size() != 220 * n || p.cmd < 0 then Reaction(c.(phase := Idle), [])
      else
        var c' := c.(mixers := if p.payload.Nodes? then KeepNodes(c.mixers, m, p.payload.nodes) else c.mixers);
        if left > n then Reaction(c'.(phase := Loading(m, nrext, left - n)), [])
        else Reaction(c'.(phase := Snapshotting(m)), [GetAllValues(m)])
    case Snapshotting(m) =>
      if p.cmd < 0 || !p.payload.Values? then Reaction(c.(phase := Idle), [])
      else Reaction(Client(Idle, KeepValues(c.mixers, m, p.payload.records)), [])
    case _ => Reaction(c, [])
  }

  /** The size that the payload of an answer must have, where the call looks at it. */
  function InfoSize(r: Request): Option<nat> {
    if r.GetMixerInfo? then Some(1136) else if r.GetEnumInfo? || r.GetDescription? then Some(3528) else None
  }

  /** What a call that asks one thing makes of the reply. */
  function Answer(r: Request, p: Packet): int {
    if InfoSize(r).Some? && p.payload.Size() != InfoSize(r).value then -1 else p.cmd
  }

  /** The code with which the call returns that is blocked in `phase`, if the packet ends it; a call without
      a result returns 0. */
  function CodeOf(phase: Phase, p: Packet): Option<int> {
    match phase
    case Welcoming => if p.cmd == CMD_OK then None else Some(-1)
    case Waiting(Exit) => Some(0)
    case Waiting(GetNodeInfo(_, _, _)) => if p.cmd < 0 || p.payload.Size() != 220 then Some(-1) else None
    case Waiting(r) => Some(Answer(r, p))
    case Opening(_) => if p.cmd < 0 then Some(-1) else None
    case Counting(_) => if p.cmd < 0 then Some(-1) else None
    case Loading(_, _, left) => if p.payload.Size() != 220 * Min(left, MAX_NODES) || p.cmd < 0 then Some(-1) else None
    case Snapshotting(_) => if p.cmd < 0 then Some(-1) else Some(0)
    case _ => None
  }

  // ---------------------------------------------------------------- the system

  /** How an open call that was told "0 nodes" went on: its node request is answered although the
      client does not wait for it (`Queued`), and that answer has been taken for another (`Misheard`). */
  datatype Stale = Never | Queued | Misheard

  /** What has happened on the daemon's side, in its order; `gained` are the nodes that have become leaves. */
  datatype Happening =
    | Sent(packet: Packet)
    | Stored(mixer: nat, node: nat, value: int)
    | NodesCached(mixer: nat, gained: set<int>)

  /** `said` pairs every solicited packet with the request it answers, as the daemon sent them;
      `heard` pairs it with the request the client took it to answer. `history`, `received` and `stale`
      only observe. */
  datatype System = System(
    client: Client, server: Server, toServer: seq<Request>, toClient: seq<Packet>,
    said: seq<(Request, Packet)>, heard: seq<(Request, Packet)>,
    history: seq<Happening>, received: seq<Packet>, stale: Stale)
  {
    ghost predicate Valid() {
      && client.Valid() && server.Valid()
      && forall r :: r in toServer ==> r.InRange()
    }
  }

  datatype Step =
    | ClientCalls(call: Call)
    | ClientReads
    | ClientPolls
    | ServerServes(device: Device)
    | ServerPolls(devices: seq<Device>, nmixers: int)

  /** A new connection to a daemon in any state. */
  function Init0(server: Server): (s: System)
    requires server.Valid()
    ensures s.Valid()
  {
    System(Client(Welcoming, map[]), server, [], [WELCOME], [(Connect, WELCOME)], [], [Sent(WELCOME)], [], Never)
  }

  function Pairs(r: Request, packets: seq<Packet>): (pairs: seq<(Request, Packet)>)
    ensures |pairs| == |packets| && forall i :: 0 <= i < |packets| ==> pairs[i] == (r, packets[i])
  {
    seq(|packets|, i requires 0 <= i < |packets| => (r, packets[i]))
  }

  function SentAll(packets: seq<Packet>): (h: seq<Happening>)
    ensures |h| == |packets| && forall i :: 0 <= i < |packets| ==> h[i] == Sent(packets[i])
  {
    seq(|packets|, i requires 0 <= i < |packets| => Sent(packets[i]))
  }

  /** A node that can have a value, of a mixer that is cached. */
  predicate Leaf(s: Server, mixer: nat, i: int)
    requires mixer in s.mixers ==> s.mixers[mixer].Valid()
  {
    mixer in s.mixers && s.mixers[mixer].IsLeaf(i)
  }

  function GainedLeaves(s: Server, s': Server, mixer: nat): set<int>
    requires (mixer in s.mixers ==> s.mixers[mixer].Valid()) && (mixer in s'.mixers ==> s'.mixers[mixer].Valid())
  {
    set i | 0 <= i < MAX_TMP_NODES && Leaf(s', mixer, i) && !Leaf(s, mixer, i)
  }

  function ServeHappenings(s: Server, r: Request, d: Device, sent: seq<Packet>): seq<Happening>
    requires s.Valid() && d.Valid() && r.InRange()
  {
    (if r.GetNodeInfo? then [NodesCached(r.mixer, GainedLeaves(s, Serve(s, r, d).server, r.mixer))] else [])
    + (if r.SetValueAt? && r.mixer in s.mixers && d.stored.Some? then [Stored(r.mixer, r.node, d.stored.value)] else [])
    + SentAll(sent)
  }

  function NextStale(s: System, p: Packet): Stale {
    if s.stale == Queued then Misheard
    else if s.stale == Never && s.client.phase.Counting? && p.cmd == 0 then Queued
    else s.stale
  }

  function ClientCall(s: System, call: Call): (s': System)
    requires s.Valid() && s.client.phase.Idle? && call.Legal()
    ensures s'.Valid()
  {
    var r := Start(s.client, call);
    s.(client := r.client, toServer := s.toServer + r.asks)
  }

  function ClientRead(s: System): (s': System)
    requires s.Valid() && s.client.phase.Blocked() && s.toClient != []
    ensures s'.Valid()
  {
    var p := s.toClient[0];
    var after := s.(toClient := s.toClient[1..], received := s.received + [p]);
    if p.unsolicited && !s.client.phase.Welcoming? then
      after.(client := HandleEvent(s.client, p))
    else
      var r := Hear(s.client, p);
      after.(client := r.client, toServer := s.toServer + r.asks,
          heard := s.heard + [(s.client.phase.Pending(), p)], stale := NextStale(s, p))
  }

  /** The poll callback: one packet, taken for an event whatever it is. */
  function ClientPoll(s: System): (s': System)
    requires s.Valid() && s.client.phase.Idle? && s.toClient != []
    ensures s'.Valid()
  {
    s.(client := HandleEvent(s.client, s.toClient[0]), toClient := s.toClient[1..],
       received := s.received + [s.toClient[0]])
  }

  function ServerServe(s: System, d: Device): (s': System)
    requires s.Valid() && s.toServer != [] && d.Valid()
    ensures s'.Valid()
  {
    var r := s.toServer[0];
    assert r in s.toServer;
    var o := Serve(s.server, r, d);
    s.(server := o.server, toServer := s.toServer[1..],
       toClient := s.toClient + o.sent, said := s.said + Pairs(r, o.sent),
       history := s.history + ServeHappenings(s.server, r, d, o.sent))
  }

  function ServerPoll(s: System, devices: seq<Device>, nmixers: int): (s': System)
    requires s.Valid() && nmixers <= MAX_TMP_MIXER == |devices| && forall d :: d in devices ==> d.Valid()
    ensures s'.Valid()
  {
    var o := Poll(s.server, devices, nmixers);
    s.(server := o.server, toClient := s.toClient + o.sent, history := s.history + SentAll(o.sent))
  }

  ghost predicate Enabled(s: System, step: Step) {
    match step
    case ClientCalls(call) => s.client.phase.Idle? && call.Legal()
    case ClientReads => s.client.phase.Blocked() && s.toClient != []
    case ClientPolls => s.client.phase.Idle? && s.toClient != []
    case ServerServes(d) => s.toServer != [] && d.Valid()
    case ServerPolls(devices, nmixers) =>
      s.server.polling && nmixers <= MAX_TMP_MIXER == |devices| && forall d :: d in devices ==> d.Valid()
  }

  ghost function Next(s: System, step: Step): (s': System)
    requires s.Valid()
    ensures s'.Valid()
  {
    if !Enabled(s, step) then s
    else match step
      case ClientCalls(call) => ClientCall(s, call)
      case ClientReads => ClientRead(s)
      case ClientPolls => ClientPoll(s)
      case ServerServes(d) => ServerServe(s, d)
      case ServerPolls(devices, nmixers) => ServerPoll(s, devices, nmixers)
  }

  /** The state after a whole run. */
  ghost function Exec(s: System, steps: seq<Step>): (t: System)
    requires s.Valid()
    ensures t.Valid()
  {
    if steps == [] then s else Next(Exec(s, steps[..|steps| - 1]), steps[|steps| - 1])
  }
}
