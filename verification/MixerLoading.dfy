/** Loading the nodes of a mixer: the client's loop over node batches against the daemon's. */
module MixerLoading {
  import opened Basics
  import opened MixerCache
  import opened MixerDaemon
  import opened MixerProtocol

  /** The client's loading loop run on a list of packets: the client it ends in, and what it left. */
  function LoadFrom(c: Client, q: seq<Packet>): (r: (Client, seq<Packet>))
    requires c.Valid()
    ensures r.0.Valid()
    decreases q
  {
    if q == [] || !c.phase.Loading? then (c, q) else LoadFrom(Hear(c, q[0]).client, q[1..])
  }

  /** The cache holds the first `n` nodes as the device describes them. */
  ghost predicate Holds(mixers: map<nat, Mixer>, mixer: nat, n: nat, info: map<int, NodeInfo>) {
    n > 0 ==>
      && mixer in mixers && mixers[mixer].Valid() && n <= MAX_TMP_NODES
      && forall i :: 0 <= i < n ==> i in info && mixers[mixer].nodes[i] == Some(info[i])
  }

  /** The records are the device's, for the nodes from `first` on. */
  ghost predicate Describes(nodes: seq<NodeInfo>, first: int, info: map<int, NodeInfo>) {
    forall k :: first <= k < first + |nodes| ==> k in info && nodes[k - first] == info[k]
  }

  lemma {:induction false} KeepNodesHolds(mixers: map<nat, Mixer>, mixer: nat, nodes: seq<NodeInfo>, n: nat, d: Device)
    requires (forall m :: m in mixers ==> mixers[m].Valid()) && d.Valid()
    requires Holds(mixers, mixer, n, d.nodeInfo) && Describes(nodes, n, d.nodeInfo)
    ensures Holds(KeepNodes(mixers, mixer, nodes), mixer, n + |nodes|, d.nodeInfo)
    decreases nodes
  {
    if nodes != [] {
      var ext := nodes[0];
      assert n in d.nodeInfo && ext == d.nodeInfo[n];
      var m := if mixer in mixers then mixers[mixer] else EmptyMixer();
      KeepNodesHolds(mixers[mixer := AddNode(m, ext.ctrl, ext)], mixer, nodes[1..], n + 1, d);
    }
  }

  lemma HearBatch(c: Client, p: Packet, n: nat, d: Device)
    requires c.Valid() && d.Valid() && c.phase.Loading? && c.phase.left > 0
    requires p.cmd >= 0 && p.payload.Nodes? && |p.payload.nodes| == Min(c.phase.left, MAX_NODES)
    requires Holds(c.mixers, c.phase.mixer, n, d.nodeInfo) && Describes(p.payload.nodes, n, d.nodeInfo)
    ensures var c' := Hear(c, p).client;
      && Holds(c'.mixers, c.phase.mixer, n + |p.payload.nodes|, d.nodeInfo)
      && c'.phase == if c.phase.left > MAX_NODES then c.phase.(left := c.phase.left - MAX_NODES)
        else Snapshotting(c.phase.mixer)
  {
    KeepNodesHolds(c.mixers, c.phase.mixer, p.payload.nodes, n, d);
  }

  ghost predicate Has(d: Device, first: nat, last: int) {
    forall k :: first <= k <= last ==> k in d.nodeInfo
  }

  /** How loading must end: with all nodes up to `last`, or idle because one of `i .. last` failed. */
  ghost predicate LoadedOrGivenUp(c: Client, mixer: nat, i: nat, last: int, d: Device) {
    if Has(d, i, last) then c.phase == Snapshotting(mixer) && last >= -1 && Holds(c.mixers, mixer, last + 1, d.nodeInfo)
    else c.phase.Idle?
  }

  /** Hearing one packet and then the rest. */
  lemma LoadOne(c: Client, p: Packet, rest: seq<Packet>)
    requires c.Valid() && c.phase.Loading?
    ensures LoadFrom(c, [p] + rest) == LoadFrom(Hear(c, p).client, rest)
  {
    assert ([p] + rest)[1..] == rest;
  }

  lemma {:induction false} LoadBatches(s: Server, c: Client, i: nat, last: int, batch: seq<NodeInfo>, d: Device)
    requires s.Valid() && c.Valid() && d.Valid() && c.phase.Loading? && |batch| < MAX_NODES && |batch| <= i <= last + 1
    requires c.phase.left == |batch| + last + 1 - i > 0
    requires Holds(c.mixers, c.phase.mixer, i - |batch|, d.nodeInfo) && Describes(batch, i - |batch|, d.nodeInfo)
    ensures var r := LoadFrom(c, SendNodes(s, c.phase.mixer, i, last, batch, d).sent);
      r.1 == [] && LoadedOrGivenUp(r.0, c.phase.mixer, i, last, d)
    decreases last + 1 - i
  {
    var mixer := c.phase.mixer;
    if i > last {
      HearBatch(c, NodeBatch(batch, last), i - |batch|, d);
    } else if i in d.nodeInfo {
      var s', batch' := CacheNode(s, mixer, d.nodeInfo[i]), batch + [d.nodeInfo[i]];
      assert Has(d, i, last) <==> Has(d, i + 1, last);
      assert Describes(batch', i - |batch|, d.nodeInfo);
      if |batch'| >= MAX_NODES {
        LoadFullBatch(s', c, i, last, batch', d);
      } else {
        LoadBatches(s', c, i + 1, last, batch', d);
      }
    } else {
      assert !Has(d, i, last);
    }
  }

  lemma {:induction false} LoadFullBatch(s: Server, c: Client, i: nat, last: int, batch: seq<NodeInfo>, d: Device)
    requires s.Valid() && c.Valid() && d.Valid() && c.phase.Loading? && |batch| == MAX_NODES && |batch| - 1 <= i <= last
    requires c.phase.left == |batch| + last - i
    requires Holds(c.mixers, c.phase.mixer, i + 1 - |batch|, d.nodeInfo)
    requires Describes(batch, i + 1 - |batch|, d.nodeInfo)
    ensures var r := LoadFrom(c, [NodeBatch(batch, i)] + SendNodes(s, c.phase.mixer, i + 1, last, [], d).sent);
      r.1 == [] && LoadedOrGivenUp(r.0, c.phase.mixer, i + 1, last, d)
    decreases last + 1 - i, 0
  {
    var p := NodeBatch(batch, i);
    HearBatch(c, p, i + 1 - |batch|, d);
    LoadOne(c, p, SendNodes(s, c.phase.mixer, i + 1, last, [], d).sent);
    if i < last {
      LoadBatches(s, Hear(c, p).client, i + 1, last, [], d);
    }
  }

  /** Node batching agrees: for every count and every device, the packets the daemon sends for the
      node request of an open call are exactly the ones the client's loop consumes. If the device
      describes every node the client goes on to the values with all of them cached; otherwise the one
      error packet ends both sides' exchange. */
  lemma BatchesLoadTheMixer(s: Server, c: Client, d: Device)
    requires s.Valid() && c.Valid() && d.Valid() && c.phase.Loading? && c.phase.left == c.phase.nrext > 0
    ensures var m, n := c.phase.mixer, c.phase.nrext;
      var (c', rest) := LoadFrom(c, Serve(s, GetNodeInfo(m, 0, n - 1), d).sent);
      rest == [] && LoadedOrGivenUp(c', m, 0, n - 1, d)
  {
    var m, n := c.phase.mixer, c.phase.nrext;
    if n > 1 {
      LoadBatches(s, c, 0, n - 1, [], d);
    } else if 0 in d.nodeInfo {
      HearBatch(c, Data(Nodes([d.nodeInfo[0]])), 0, d);
    } else {
      assert !Has(d, 0, 0);
    }
  }
}
