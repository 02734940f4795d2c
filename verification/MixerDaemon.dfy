/** The mixer daemon: the packets it exchanges with its one client, what serving a request and
    polling the devices do (functions), and the daemon object that does it step by step. */
module MixerDaemon {
  import opened Basics
  import opened ChangeMask
  import opened MixerCache

  const MAX_NODES: nat := 32
  const MAX_TMP_MIXER: nat := 64

  const CMD_OK := 0
  const CMD_ERROR := -1
  const CMD_GET_NODEINFO := 8
  const CMD_GET_ALL_VALUES := 13
  const EVENT_VALUE := 1000001
  const EVENT_NEWMIXER := 1000002
  const P1_MAGIC := 0x12345678

  /** What the client asks. `Connect` stands for opening the socket, which the daemon answers with
      its welcome; the other requests travel as packets. INIT and EXIT always ask for their ack. */
  datatype Request =
    | Connect
    | Init
    | Exit
    | StartEvents
    | GetNMixers
    | GetMixerInfo(mixer: nat)
    | OpenMixer(mixer: nat)
    | CloseMixer(mixer: nat)
    | GetNrext(mixer: nat)
    | GetNodeInfo(mixer: nat, first: nat, last: int)
    | GetEnumInfo(mixer: nat, node: nat)
    | GetDescription(mixer: nat, node: nat)
    | GetValue(mixer: nat, node: nat)
    | SetValueAt(mixer: nat, node: nat, value: int)
    | GetAllValues(mixer: nat)
  {
    /** The requests the daemon answers; the others are obeyed in silence. */
    predicate Answered() {
      !StartEvents? && !CloseMixer? && !SetValueAt?
    }

    /** Mixer and node numbers index the fixed tables of both programs. */
    predicate InRange() {
      match this
      case Connect => false
      case OpenMixer(m) => m < MAX_TMP_MIXER
      case CloseMixer(m) => m < MAX_TMP_MIXER
      case GetNodeInfo(m, _, _) => m < MAX_TMP_MIXER
      case GetValue(m, node) => m < MAX_TMP_MIXER && node < MAX_TMP_NODES
      case SetValueAt(m, node, _) => m < MAX_TMP_MIXER && node < MAX_TMP_NODES
      case GetAllValues(m) => m < MAX_TMP_MIXER
      case _ => true
    }
  }

  datatype Payload =
    | NoPayload
    | Text(length: nat)
    | MixerInfo
    | Nodes(nodes: seq<NodeInfo>)
    | EnumInfo
    | Values(records: seq<Rec>)
  {
    /** Size in bytes on the wire. */
    function Size(): nat {
      match this
      case NoPayload => 0
      case Text(n) => n
      case MixerInfo => 1136
      case Nodes(nodes) => 220 * |nodes|
      case EnumInfo => 3528
      case Values(records) => 8 * |records|
    }
  }

  datatype Packet = Packet(cmd: int, p1: int, p2: int, unsolicited: bool, payload: Payload)

  function Reply(cmd: int): Packet { Packet(cmd, 0, 0, false, NoPayload) }
  function Data(payload: Payload): Packet { Packet(CMD_OK, 0, 0, false, payload) }
  /** An error packet whose text has `length` bytes, the closing zero included. */
  function Error(length: nat): Packet { Packet(CMD_ERROR, 0, 0, false, Text(length)) }
  function NodeBatch(nodes: seq<NodeInfo>, last: int): Packet {
    Packet(CMD_GET_NODEINFO, |nodes|, last, false, Nodes(nodes))
  }
  function ValueEvent(mixer: nat, records: seq<Rec>): Packet {
    Packet(EVENT_VALUE, |records|, mixer, true, Values(records))
  }
  function Snapshot(mixer: nat, records: seq<Rec>): Packet {
    Packet(CMD_GET_ALL_VALUES, |records|, mixer, false, Values(records))
  }
  function NewMixerEvent(count: int): Packet { Packet(EVENT_NEWMIXER, count, 0, true, NoPayload) }
  const WELCOME := Packet(CMD_OK, P1_MAGIC, 0, false, NoPayload)

  /** What the local driver answers while the daemon serves one request or polls one mixer.
      `nodeInfo` and `values` hold the successful calls; `stored` is the value the device kept. */
  datatype Device = Device(
    nmixers: int, hasInfo: bool, openResult: int, nrext: int, nodeInfo: map<int, NodeInfo>,
    hasEnum: bool, hasDescription: bool, values: map<int, int>, stored: Option<int>)
  {
    /** The driver respects the fixed tables and answers for the node it was asked about. */
    ghost predicate Valid() {
      && nmixers <= MAX_TMP_MIXER
      && nrext <= MAX_TMP_NODES
      && forall i :: i in nodeInfo ==> 0 <= i < MAX_TMP_NODES && nodeInfo[i].ctrl == i
    }

    function Count(): nat {
      if nrext < 0 then 0 else nrext
    }
  }

  datatype Server = Server(polling: bool, numMixers: int, open: seq<bool>, mixers: map<nat, Mixer>) {
    ghost predicate Valid() {
      && |open| == MAX_TMP_MIXER && numMixers <= MAX_TMP_MIXER
      && forall m :: m in mixers ==> m < MAX_TMP_MIXER && mixers[m].Valid()
    }
  }

  /** What one request or poll leads to: the new server and the packets sent, in order. */
  datatype Outcome = Outcome(server: Server, sent: seq<Packet>)

  /** The outcome with `first` sent ahead of everything else. */
  function Prefixed(first: seq<Packet>, o: Outcome): Outcome {
    o.(sent := first + o.sent)
  }

  lemma Regrouped(a: seq<Packet>, b: seq<Packet>, c: seq<Packet>)
    ensures a + b + c == a + (b + c)
  {
  }

  lemma PrefixedMore(first: seq<Packet>, second: seq<Packet>, o: Outcome)
    ensures Prefixed(first, Prefixed(second, o)) == Prefixed(first + second, o)
  {
    assert first + (second + o.sent) == first + second + o.sent;
  }


  function CacheNode(s: Server, mixer: nat, ext: NodeInfo): (r: Server)
    requires s.Valid() && mixer < MAX_TMP_MIXER && 0 <= ext.ctrl < MAX_TMP_NODES
    ensures r.Valid()
  {
    var m := if mixer in s.mixers then s.mixers[mixer] else EmptyMixer();
    s.(mixers := s.mixers[mixer := AddNode(m, ext.ctrl, ext)])
  }

  function CacheValue(s: Server, mixer: nat, node: nat, value: int): (r: Server)
    requires s.Valid() && mixer < MAX_TMP_MIXER && node < MAX_TMP_NODES
    ensures r.Valid()
  {
    if mixer in s.mixers then s.(mixers := s.mixers[mixer := SetValue(s.mixers[mixer], node, value)]) else s
  }

  /** Sending the nodes `i .. last` in batches; `batch` is what has been gathered so far. */
  function SendNodes(s: Server, mixer: nat, i: nat, last: int, batch: seq<NodeInfo>, d: Device): (r: Outcome)
    requires s.Valid() && d.Valid() && mixer < MAX_TMP_MIXER
    ensures r.server.Valid()
    decreases last + 1 - i
  {
    if i > last then
      Outcome(s, if |batch| > 0 then [NodeBatch(batch, last)] else [])
    else if i !in d.nodeInfo then
      Outcome(s, [Error(28)])
    else
      var s' := CacheNode(s, mixer, d.nodeInfo[i]);
      var batch' := batch + [d.nodeInfo[i]];
      if |batch'| >= MAX_NODES then
        Prefixed([NodeBatch(batch', i)], SendNodes(s', mixer, i + 1, last, [], d))
      else
        SendNodes(s', mixer, i + 1, last, batch', d)
  }

  /** One node of the loop. */
  lemma SendNodesStep(s: Server, mixer: nat, i: nat, last: int, batch: seq<NodeInfo>, d: Device,
                      sent: seq<Packet>, s': Server, batch': seq<NodeInfo>)
    requires s.Valid() && d.Valid() && mixer < MAX_TMP_MIXER && i <= last && i in d.nodeInfo && |batch| < MAX_NODES
    requires s' == CacheNode(s, mixer, d.nodeInfo[i])
    requires var full := |batch| + 1 == MAX_NODES; var all := batch + [d.nodeInfo[i]];
      sent == (if full then [NodeBatch(all, i)] else []) && batch' == if full then [] else all
    ensures SendNodes(s, mixer, i, last, batch, d) == Prefixed(sent, SendNodes(s', mixer, i + 1, last, batch', d))
  {
  }

  function ServeNodeInfo(s: Server, mixer: nat, first: nat, last: int, d: Device): (r: Outcome)
    requires s.Valid() && d.Valid() && mixer < MAX_TMP_MIXER
    ensures r.server.Valid()
  {
    if last > first then SendNodes(s, mixer, first, last, [], d)
    else if first !in d.nodeInfo then Outcome(s, [Error(28)])
    else Outcome(CacheNode(s, mixer, d.nodeInfo[first]), [Data(Nodes([d.nodeInfo[first]]))])
  }

  function ServeAllValues(s: Server, mixer: nat, d: Device): (r: Outcome)
    requires s.Valid() && d.Valid()
    ensures r.server.Valid()
  {
    if mixer !in s.mixers then Outcome(s, [Snapshot(mixer, [])])
    else
      var refreshed := Refresh(s.mixers[mixer], d.Count(), d.values);
      var collected := ClearFlags(Collected(refreshed, refreshed.nrext, false));
      Outcome(s.(mixers := s.mixers[mixer := collected]), [Snapshot(mixer, Collect(refreshed, refreshed.nrext, false))])
  }

  function Serve(s: Server, r: Request, d: Device): (o: Outcome)
    requires s.Valid() && d.Valid() && r.InRange()
    ensures o.server.Valid()
  {
    match r
    case Init => Outcome(s.(polling := false), [Reply(CMD_OK)])
    case Exit => Outcome(s.(polling := false, open := seq(MAX_TMP_MIXER, _ => false)), [Reply(CMD_OK)])
    case StartEvents => Outcome(s.(polling := true), [])
    case GetNMixers => Outcome(s.(numMixers := d.nmixers), [Reply(d.nmixers)])
    case GetMixerInfo(_) => Outcome(s, [if d.hasInfo then Data(MixerInfo) else Error(23)])
    case OpenMixer(m) => Outcome(s.(open := s.open[m := true]), [Reply(d.openResult)])
    case CloseMixer(m) => Outcome(s.(open := s.open[m := false]), [])
    case GetNrext(_) => Outcome(s, [Reply(d.nrext)])
    case GetNodeInfo(m, first, last) => ServeNodeInfo(s, m, first, last, d)
    case GetEnumInfo(_, _) => Outcome(s, [if d.hasEnum then Data(EnumInfo) else Error(31)])
    case GetDescription(_, _) => Outcome(s, [if d.hasDescription then Data(EnumInfo) else Error(30)])
    case GetValue(m, node) =>
      if node in d.values then Outcome(CacheValue(s, m, node, d.values[node]), [Reply(d.values[node])])
      else Outcome(s, [Reply(-1)])
    case SetValueAt(m, node, _) =>
      if d.stored.Some? then Outcome(CacheValue(s, m, node, d.stored.value), []) else Outcome(s, [])
    case GetAllValues(m) => ServeAllValues(s, m, d)
  }

  /** Polling one mixer: nothing unless it is open and cached. */
  function PollOne(s: Server, mixer: nat, d: Device): (o: Outcome)
    requires s.Valid() && d.Valid() && mixer < MAX_TMP_MIXER
    ensures o.server.Valid()
  {
    if s.open[mixer] && mixer in s.mixers then
      var m := s.mixers[mixer];
      var records := PollRecords(m, d.Count(), d.values);
      Outcome(s.(mixers := s.mixers[mixer := PollMixer(m, d.Count(), d.values)]),
              if records == [] then [] else [ValueEvent(mixer, records)])
    else Outcome(s, [])
  }

  /** Polling the mixers below `n`, in order. */
  function PollMixers(s: Server, n: nat, devices: seq<Device>): (o: Outcome)
    requires s.Valid() && n <= MAX_TMP_MIXER == |devices| && forall d :: d in devices ==> d.Valid()
    ensures o.server.Valid()
  {
    if n == 0 then Outcome(s, [])
    else
      var before := PollMixers(s, n - 1, devices);
      var last := PollOne(before.server, n - 1, devices[n - 1]);
      Outcome(last.server, before.sent + last.sent)
  }

  function Poll(s: Server, devices: seq<Device>, nmixers: int): (o: Outcome)
    requires s.Valid() && |devices| == MAX_TMP_MIXER && nmixers <= MAX_TMP_MIXER
    requires forall d :: d in devices ==> d.Valid()
    ensures o.server.Valid()
  {
    var polled := PollMixers(s, if s.numMixers < 0 then 0 else s.numMixers, devices);
    if nmixers > s.numMixers then
      Outcome(polled.server.(numMixers := nmixers), polled.sent + [NewMixerEvent(nmixers)])
    else polled
  }

  /** The daemon process: its globals, the cache it shares with its local driver, and everything it
      has written to the socket. */
  class Daemon {
    var polling: bool
    var numMixers: int
    const openMask: array<bv8>
    const cache: CacheTable
    var written: seq<Packet>

    ghost predicate Valid()
      reads this, openMask, cache, cache.Repr
    {
      && 8 * openMask.Length == MAX_TMP_MIXER && numMixers <= MAX_TMP_MIXER
      && cache.Valid() && this !in cache.Repr && openMask !in cache.Repr
      && cache.contents.Keys == cache.mixers.Keys
      && forall m :: m in cache.contents ==> m < MAX_TMP_MIXER && cache.contents[m].Valid()
    }

    ghost function State(): (s: Server)
      requires Valid()
      reads this, openMask, cache, cache.Repr
      ensures s.Valid()
    {
      Server(polling, numMixers, Flags(openMask[..]), cache.contents)
    }

    /** What one request or poll must have done. */
    twostate predicate Did(o: Outcome)
      requires Valid()
      reads this, openMask, cache, cache.Repr
    {
      State() == o.server && written == old(written) + o.sent
    }

    /** The cache has grown by new objects only. */
    twostate predicate Grown()
      reads this, cache
    {
      fresh(cache.Repr - old(cache.Repr))
    }

    /** The cache has the mixers it had. */
    twostate predicate Steady()
      reads this, cache
    {
      cache.Repr == old(cache.Repr) && cache.mixers == old(cache.mixers)
    }

    constructor ()
      ensures Valid() && State() == Server(false, 0, seq(MAX_TMP_MIXER, _ => false), map[]) && written == []
    {
      polling, numMixers, written := false, 0, [];
      openMask := new bv8[MAX_TMP_MIXER / 8](_ => 0);
      cache := new CacheTable();
      new;
      assert Flags(openMask[..]) == seq(MAX_TMP_MIXER, _ => false);
    }

    method Send(p: Packet)
      requires Valid()
      modifies this`written
      ensures written == old(written) + [p] && Valid() && State() == old(State())
    {
      written := written + [p];
    }

    method Cache(mixer: nat, ext: NodeInfo)
      requires Valid() && mixer < MAX_TMP_MIXER && 0 <= ext.ctrl < MAX_TMP_NODES
      modifies cache.Repr
      ensures Valid() && Grown() && State() == CacheNode(old(State()), mixer, ext)
    {
      cache.Insert(mixer, ext.ctrl, ext);
    }

    method StoreValue(mixer: nat, node: nat, value: int)
      requires Valid() && mixer < MAX_TMP_MIXER && node < MAX_TMP_NODES
      modifies cache.Repr
      ensures Valid() && Steady() && State() == CacheValue(old(State()), mixer, node, value)
    {
      cache.Store(mixer, node, value);
    }

    /** The values of a mixer, which is refreshed first. */
    method AllValues(mixer: nat, d: Device) returns (records: seq<Rec>)
      requires Valid() && d.Valid()
      modifies cache.Repr
      ensures Valid() && Steady()
      ensures Outcome(State(), [Snapshot(mixer, records)]) == ServeAllValues(old(State()), mixer, d)
    {
      records := [];
      if mixer in cache.mixers {
        records := cache.Snapshot(mixer, d.nrext, d.values);
      }
    }

    /** The news of a mixer that is cached. */
    method News(mixer: nat, d: Device) returns (records: seq<Rec>)
      requires Valid() && d.Valid() && mixer in cache.mixers
      modifies cache.Repr
      ensures Valid() && Steady() && records == PollRecords(old(State()).mixers[mixer], d.Count(), d.values)
      ensures var s := old(State());
        State() == s.(mixers := s.mixers[mixer := PollMixer(s.mixers[mixer], d.Count(), d.values)])
    {
      records := cache.PollOne(mixer, d.nrext, d.values);
    }

    /** The buffer is sent when it is full. */
    method Flush(last: int, nodes: seq<NodeInfo>) returns (nodes': seq<NodeInfo>, ghost sent: seq<Packet>)
      requires Valid() && 0 < |nodes| <= MAX_NODES
      modifies this`written
      ensures Valid() && State() == old(State()) && written == old(written) + sent
      ensures nodes' == if |nodes| == MAX_NODES then [] else nodes
      ensures sent == if |nodes| == MAX_NODES then [NodeBatch(nodes, last)] else []
    {
      nodes', sent := nodes, [];
      if |nodes| >= MAX_NODES {
        sent := [NodeBatch(nodes, last)];
        Send(NodeBatch(nodes, last));
        nodes' := [];
      }
    }

    /** One more node. */
    method NextNode(mixer: nat, i: nat, last: int, d: Device, nodes: seq<NodeInfo>)
      returns (nodes': seq<NodeInfo>, ghost s: Server, ghost sent: seq<Packet>)
      requires Valid() && d.Valid() && mixer < MAX_TMP_MIXER && i <= last && i in d.nodeInfo && |nodes| < MAX_NODES
      modifies this`written, cache.Repr
      ensures Valid() && Grown() && |nodes'| < MAX_NODES && State() == s && written == old(written) + sent
      ensures SendNodes(old(State()), mixer, i, last, nodes, d)
        == Prefixed(sent, SendNodes(s, mixer, i + 1, last, nodes', d))
    {
      Cache(mixer, d.nodeInfo[i]);
      nodes', sent := Flush(i, nodes + [d.nodeInfo[i]]);
      s := State();
      SendNodesStep(old(State()), mixer, i, last, nodes, d, sent, s, nodes');
    }

    /** What is left in the buffer, or the error that ends it all. */
    method Finish(mixer: nat, i: nat, last: int, d: Device, nodes: seq<NodeInfo>)
      requires Valid() && d.Valid() && mixer < MAX_TMP_MIXER && (i > last || i !in d.nodeInfo)
      modifies this`written
      ensures Valid() && Did(SendNodes(old(State()), mixer, i, last, nodes, d))
    {
      if i <= last {
        Send(Error(28));
      } else if |nodes| > 0 {
        Send(NodeBatch(nodes, last));
      }
    }

    /** Gathers the nodes in a buffer of `MAX_NODES` records and sends it whenever it is full. */
    method SendMultipleNodes(mixer: nat, first: nat, last: int, d: Device)
      requires Valid() && d.Valid() && mixer < MAX_TMP_MIXER
      modifies this`written, cache.Repr
      ensures Valid() && Grown() && Did(SendNodes(old(State()), mixer, first, last, [], d))
    {
      ghost var start, before := State(), written;
      var i, nodes;
      ghost var s, sent;
      i, nodes, s, sent := SendFullBatches(mixer, first, last, d);
      Finish(mixer, i, last, d, nodes);
      Regrouped(before, sent, SendNodes(s, mixer, i, last, nodes, d).sent);
    }

    /** The loop, which ends behind the last node or at one that cannot be read. */
    method SendFullBatches(mixer: nat, first: nat, last: int, d: Device)
      returns (i: nat, nodes: seq<NodeInfo>, ghost s: Server, ghost sent: seq<Packet>)
      requires Valid() && d.Valid() && mixer < MAX_TMP_MIXER
      modifies this`written, cache.Repr
      ensures Valid() && Grown() && State() == s && written == old(written) + sent && (i > last || i !in d.nodeInfo)
      ensures SendNodes(old(State()), mixer, first, last, [], d)
        == Prefixed(sent, SendNodes(s, mixer, i, last, nodes, d))
    {
      ghost var start := State();
      i, nodes, s, sent := first, [], start, [];
      while i <= last && i in d.nodeInfo
        invariant Valid() && Grown() && |nodes| < MAX_NODES && State() == s && written == old(written) + sent
        invariant SendNodes(start, mixer, first, last, [], d) == Prefixed(sent, SendNodes(s, mixer, i, last, nodes, d))
        decreases last + 1 - i
      {
        ghost var now;
        nodes, s, now := NextNode(mixer, i, last, d, nodes);
        PrefixedMore(sent, now, SendNodes(s, mixer, i + 1, last, nodes, d));
        Regrouped(old(written), sent, now);
        sent := sent + now;
        i := i + 1;
      }
    }

    method SendNodeInfo(mixer: nat, first: nat, last: int, d: Device)
      requires Valid() && d.Valid() && mixer < MAX_TMP_MIXER
      modifies this`written, cache.Repr
      ensures Valid() && Grown() && Did(ServeNodeInfo(old(State()), mixer, first, last, d))
    {
      if last > first {
        SendMultipleNodes(mixer, first, last, d);
      } else if first !in d.nodeInfo {
        Send(Error(28));
      } else {
        Cache(mixer, d.nodeInfo[first]);
        Send(Data(Nodes([d.nodeInfo[first]])));
      }
    }

    method SendAllValues(mixer: nat, d: Device)
      requires Valid() && d.Valid()
      modifies this`written, cache.Repr
      ensures Valid() && Steady() && Did(ServeAllValues(old(State()), mixer, d))
    {
      var records := AllValues(mixer, d);
      Send(Snapshot(mixer, records));
    }

    /** Sets or clears the bit that says whether the mixer is open. */
    method MarkOpen(mixer: nat, isOpen: bool)
      requires Valid() && mixer < MAX_TMP_MIXER
      modifies openMask
      ensures Valid() && State() == old(State()).(open := old(State()).open[mixer := isOpen])
    {
      if isOpen {
        SetBit(openMask, mixer);
      } else {
        ClearBit(openMask, mixer);
      }
    }

    method CloseAll()
      requires Valid()
      modifies openMask
      ensures Valid() && State() == old(State()).(open := seq(MAX_TMP_MIXER, _ => false))
    {
      for k := 0 to openMask.Length
        invariant forall j :: 0 <= j < k ==> openMask[j] == 0
      {
        openMask[k] := 0;
      }
      assert Flags(openMask[..]) == seq(MAX_TMP_MIXER, _ => false);
    }

    method SetPolling(on: bool)
      requires Valid()
      modifies this`polling
      ensures Valid() && State() == old(State()).(polling := on)
    {
      polling := on;
    }

    method SetCount(n: int)
      requires Valid() && n <= MAX_TMP_MIXER
      modifies this`numMixers
      ensures Valid() && numMixers == n && State() == old(State()).(numMixers := n)
    {
      numMixers := n;
    }

    method ServeCommand(r: Request, d: Device)
      requires Valid() && d.Valid() && r.InRange()
      modifies this`polling, this`numMixers, this`written, openMask, cache.Repr
      ensures Valid() && Grown() && Did(Serve(old(State()), r, d))
    {
      match r
      case Init =>
        SetPolling(false);
        Send(Reply(CMD_OK));
      case Exit =>
        SetPolling(false);
        CloseAll();
        Send(Reply(CMD_OK));
      case StartEvents =>
        SetPolling(true);
      case GetNMixers =>
        SetCount(d.nmixers);
        Send(Reply(numMixers));
      case GetMixerInfo(_) =>
        Send(if d.hasInfo then Data(MixerInfo) else Error(23));
      case OpenMixer(m) =>
        MarkOpen(m, true);
        Send(Reply(d.openResult));
      case CloseMixer(m) =>
        MarkOpen(m, false);
      case GetNrext(_) =>
        Send(Reply(d.nrext));
      case GetNodeInfo(m, first, last) =>
        SendNodeInfo(m, first, last, d);
      case GetEnumInfo(_, _) =>
        Send(if d.hasEnum then Data(EnumInfo) else Error(31));
      case GetDescription(_, _) =>
        Send(if d.hasDescription then Data(EnumInfo) else Error(30));
      case GetValue(m, node) =>
        if node in d.values {
          StoreValue(m, node, d.values[node]);
          Send(Reply(d.values[node]));
        } else {
          Send(Reply(-1));
        }
      case SetValueAt(m, node, _) =>
        if d.stored.Some? {
          StoreValue(m, node, d.stored.value);
        }
      case GetAllValues(m) =>
        SendAllValues(m, d);
    }

    method PollMixerAt(mixer: nat, d: Device)
      requires Valid() && d.Valid() && mixer < MAX_TMP_MIXER
      modifies this`written, cache.Repr
      ensures Valid() && Steady() && Did(PollOne(old(State()), mixer, d))
    {
      assert Flags(openMask[..])[mixer] == Test(openMask[mixer / 8], mixer % 8);
      if Test(openMask[mixer / 8], mixer % 8) && mixer in cache.mixers {
        var records := News(mixer, d);
        if records != [] {
          Send(ValueEvent(mixer, records));
        }
      }
    }

    /** The mixers below `mixer` have been polled. */
    ghost predicate Polled(start: Server, before: seq<Packet>, mixer: nat, devices: seq<Device>)
      requires mixer <= MAX_TMP_MIXER == |devices| && start.Valid() && forall d :: d in devices ==> d.Valid()
      reads this, openMask, cache, cache.Repr
    {
      && Valid() && State() == PollMixers(start, mixer, devices).server
      && written == before + PollMixers(start, mixer, devices).sent
    }

    method PollNext(mixer: nat, devices: seq<Device>, ghost start: Server, ghost before: seq<Packet>)
      requires mixer < |devices| == MAX_TMP_MIXER && start.Valid() && forall d :: d in devices ==> d.Valid()
      requires Polled(start, before, mixer, devices)
      modifies this`written, cache.Repr
      ensures Polled(start, before, mixer + 1, devices) && Steady()
    {
      assert devices[mixer] in devices;
      ghost var sent := PollMixers(start, mixer, devices).sent;
      PollMixerAt(mixer, devices[mixer]);
      Regrouped(before, sent, PollOne(PollMixers(start, mixer, devices).server, mixer, devices[mixer]).sent);
    }

    method PollDevices(devices: seq<Device>, nmixers: int)
      requires Valid() && |devices| == MAX_TMP_MIXER && nmixers <= MAX_TMP_MIXER
      requires forall d :: d in devices ==> d.Valid()
      modifies this`numMixers, this`written, cache.Repr
      ensures Valid() && Steady() && Did(Poll(old(State()), devices, nmixers))
    {
      var mixer := 0;
      ghost var start, before := State(), written;
      while mixer < numMixers
        invariant 0 <= mixer <= MAX_TMP_MIXER && (mixer <= numMixers || mixer == 0) && numMixers == start.numMixers
        invariant Polled(start, before, mixer, devices) && Steady()
      {
        PollNext(mixer, devices, start, before);
        mixer := mixer + 1;
      }
      if nmixers > numMixers {
        SetCount(nmixers);
        Send(NewMixerEvent(nmixers));
      }
    }
  }
}
