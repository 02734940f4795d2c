/** What an open call leaves in the client's own cache: the values that the daemon's cache had when it was
    asked for them. */
module MixerStored {
  import opened Basics
  import opened MixerCache
  import opened MixerDaemon
  import opened MixerProtocol
  import opened MixerCorrelation
  import opened MixerRuns
  import opened MixerReturns

  // ---------------------------------------------------------------- storing a snapshot

  ghost predicate AllValid(mixers: map<nat, Mixer>) {
    forall m :: m in mixers ==> mixers[m].Valid()
  }

  /** Only values of one mixer may have moved. */
  ghost predicate OnlyValues(before: map<nat, Mixer>, after: map<nat, Mixer>, mixer: nat) {
    && after.Keys == before.Keys
    && (forall m :: m in before && m != mixer ==> after[m] == before[m])
    && (mixer in before ==> after[mixer].nodes == before[mixer].nodes && after[mixer].nrext == before[mixer].nrext)
  }

  /** Records are stored each at its node; every other node keeps its value. */
  lemma {:induction false} KeepValuesMeaning(mixers: map<nat, Mixer>, mixer: nat, records: seq<Rec>)
    requires AllValid(mixers) && mixer in mixers && Ascending(records)
    requires forall k :: 0 <= k < |records| ==> 0 <= records[k].node < MAX_TMP_NODES
    ensures var r := KeepValues(mixers, mixer, records);
      && AllValid(r) && OnlyValues(mixers, r, mixer)
      && (forall k :: 0 <= k < |records| ==> r[mixer].values[records[k].node] == records[k].value)
      && forall i :: 0 <= i < MAX_TMP_NODES && (forall k :: 0 <= k < |records| ==> records[k].node != i) ==>
           r[mixer].values[i] == mixers[mixer].values[i]
    decreases records
  {
    if records != [] {
      var first, rest := records[0], records[1..];
      var next := mixers[mixer := SetValue(mixers[mixer], first.node, first.value)];
      assert forall k :: 0 <= k < |rest| ==> rest[k] == records[k + 1];
      KeepValuesMeaning(next, mixer, rest);
      var r := KeepValues(mixers, mixer, records);
      assert r == KeepValues(next, mixer, rest);
      assert r[mixer].values[first.node] == first.value;
      forall k | 0 <= k < |records| ensures r[mixer].values[records[k].node] == records[k].value {
        if k > 0 {
          assert records[k] == rest[k - 1];
        }
      }
    }
  }

  /** The mixer's leaves have the daemon's values; everything else is as it was. */
  ghost predicate Stored(before: map<nat, Mixer>, after: map<nat, Mixer>, mixer: nat, daemon: Server)
    requires AllValid(before) && AllValid(after) && daemon.Valid()
  {
    && mixer in before && OnlyValues(before, after, mixer)
    && forall i :: 0 <= i < MAX_TMP_NODES ==>
         after[mixer].values[i] ==
           if Leaf(daemon, mixer, i) then daemon.mixers[mixer].values[i] else before[mixer].values[i]
  }

  /** All leaves of a mixer, in ascending order, with their values. */
  ghost predicate IsSnapshot(m: Mixer, records: seq<Rec>)
    requires m.Valid()
  {
    && Ascending(records)
    && (forall k :: 0 <= k < |records| ==> m.IsLeaf(records[k].node) && records[k].value == m.values[records[k].node])
    && forall i :: m.IsLeaf(i) ==> Rec(i, m.values[i]) in records
  }

  lemma CollectIsSnapshot(m: Mixer)
    requires m.Valid()
    ensures IsSnapshot(m, Collect(m, m.nrext, false))
  {
    CollectMeaning(m, m.nrext, false);
    var records := Collect(m, m.nrext, false);
    forall i | m.IsLeaf(i) ensures Rec(i, m.values[i]) in records {
      assert Reported(m, i, false);
    }
    forall k | 0 <= k < |records| ensures m.IsLeaf(records[k].node) && records[k].value == m.values[records[k].node] {
      assert Reported(m, records[k].node, false);
    }
  }

  /** `now` is `was` with the records of a snapshot in their places. */
  lemma SnapshotLeaves(m: Mixer, records: seq<Rec>, was: seq<int>, now: seq<int>)
    requires m.Valid() && IsSnapshot(m, records) && |was| == |now| == MAX_TMP_NODES
    requires forall k :: 0 <= k < |records| ==> 0 <= records[k].node < |now| && now[records[k].node] == records[k].value
    requires forall i :: 0 <= i < |now| && (forall k :: 0 <= k < |records| ==> records[k].node != i) ==>
      now[i] == was[i]
    ensures forall i :: 0 <= i < |now| ==> now[i] == if m.IsLeaf(i) then m.values[i] else was[i]
  {
    forall i | 0 <= i < |now| ensures now[i] == if m.IsLeaf(i) then m.values[i] else was[i] {
      if m.IsLeaf(i) {
        var k :| 0 <= k < |records| && records[k] == Rec(i, m.values[i]);
      }
    }
  }

  lemma AllRecordsStored(mixers: map<nat, Mixer>, mixer: nat, m: Mixer, records: seq<Rec>)
    requires AllValid(mixers) && mixer in mixers && m.Valid() && IsSnapshot(m, records)
    ensures var after := KeepValues(mixers, mixer, records);
      && AllValid(after) && OnlyValues(mixers, after, mixer)
      && forall i :: 0 <= i < MAX_TMP_NODES ==>
           after[mixer].values[i] == if m.IsLeaf(i) then m.values[i] else mixers[mixer].values[i]
  {
    KeepValuesMeaning(mixers, mixer, records);
    SnapshotLeaves(m, records, mixers[mixer].values, KeepValues(mixers, mixer, records)[mixer].values);
  }

  /** The answer to a request for all values, stored. */
  lemma SnapshotStored(mixers: map<nat, Mixer>, mixer: nat, s: Server, d: Device)
    requires AllValid(mixers) && mixer in mixers && s.Valid() && d.Valid() && mixer < MAX_TMP_MIXER
    ensures var o := ServeAllValues(s, mixer, d);
      && |o.sent| == 1 && o.sent[0].cmd >= 0 && o.sent[0].payload.Values?
      && Stored(mixers, KeepValues(mixers, mixer, o.sent[0].payload.records), mixer, o.server)
  {
    if mixer in s.mixers {
      var refreshed := Refresh(s.mixers[mixer], d.Count(), d.values);
      CollectIsSnapshot(refreshed);
      AllRecordsStored(mixers, mixer, refreshed, Collect(refreshed, refreshed.nrext, false));
      assert ServeAllValues(s, mixer, d).server.mixers[mixer]
        == ClearFlags(Collected(refreshed, refreshed.nrext, false));
    }
  }

  // ---------------------------------------------------------------- the mixer is there

  ghost predicate GoodNodes(nodes: seq<NodeInfo>) {
    forall k :: 0 <= k < |nodes| ==> 0 <= nodes[k].ctrl < MAX_TMP_NODES
  }

  lemma {:induction false} SentNodesGood(s: Server, mixer: nat, i: nat, last: int, batch: seq<NodeInfo>, d: Device)
    requires s.Valid() && d.Valid() && mixer < MAX_TMP_MIXER && GoodNodes(batch)
    ensures forall p :: p in SendNodes(s, mixer, i, last, batch, d).sent && p.payload.Nodes? ==>
      GoodNodes(p.payload.nodes)
    decreases last + 1 - i
  {
    if i <= last && i in d.nodeInfo {
      var s', batch' := CacheNode(s, mixer, d.nodeInfo[i]), batch + [d.nodeInfo[i]];
      SentNodesGood(s', mixer, i + 1, last, if |batch'| >= MAX_NODES then [] else batch', d);
    }
  }

  lemma AnswerNodesGood(v: Service, j: nat, r: Request, p: Packet)
    requires AnswersAt(v, j, r, p) && r.GetNodeInfo? && p.payload.Nodes?
    ensures GoodNodes(p.payload.nodes)
  {
    assert p in Serve(v.before, v.request, v.device).sent;
    if r.last > r.first {
      SentNodesGood(v.before, r.mixer, r.first, r.last, [], v.device);
    }
  }

  lemma {:induction false} KeepNodesHas(mixers: map<nat, Mixer>, mixer: nat, nodes: seq<NodeInfo>)
    requires AllValid(mixers) && GoodNodes(nodes)
    ensures nodes != [] || mixer in mixers ==> mixer in KeepNodes(mixers, mixer, nodes)
    decreases nodes
  {
    if nodes != [] {
      var ext := nodes[0];
      var m := if mixer in mixers then mixers[mixer] else EmptyMixer();
      KeepNodesHas(mixers[mixer := AddNode(m, ext.ctrl, ext)], mixer, nodes[1..]);
    }
  }

  /** A client that has loaded nodes of a mixer has the mixer. */
  ghost predicate Loaded(s: System) {
    s.stale == Never ==>
      && (s.client.phase.Snapshotting? ==> s.client.phase.mixer in s.client.mixers)
      && (s.client.phase.Loading? && s.client.phase.left < s.client.phase.nrext ==>
            s.client.phase.mixer in s.client.mixers)
  }

  lemma ReplyLoads(s: System, services: seq<Service>)
    requires s.Valid() && Inv(s) && Usual(s.client.phase) && ReadsReply(s) && AllAnswered(services, s.said)
    requires (!s.client.phase.Welcoming? ==> s.heard != []) && Loaded(s)
    ensures Loaded(ClientRead(s))
  {
    var s', phase, p := ClientRead(s), s.client.phase, s.toClient[0];
    if s'.stale == Never && phase.Loading? {
      InStep(s);
      FrontSaid(s);
      if p.cmd >= 0 {
        var i := FrontService(s, services);
        AnswerNodesGood(services[i], |s.heard|, phase.Pending(), p);
        KeepNodesHas(s.client.mixers, phase.mixer, p.payload.nodes);
      }
    }
  }

  lemma StepLoads(l: Log, step: Step)
    requires Logged(l) && Loaded(l.system)
    ensures Loaded(Next(l.system, step))
  {
    if Enabled(l.system, step) && step.ClientReads? && ReadsReply(l.system) {
      ReplyLoads(l.system, l.services);
    }
  }

  lemma {:induction false} RunLoads(server: Server, steps: seq<Step>)
    requires server.Valid()
    ensures Loaded(Run(server, steps).system)
  {
    if steps != [] {
      RunLoads(server, steps[..|steps| - 1]);
      RunLogs(server, steps[..|steps| - 1]);
      StepLoads(Run(server, steps[..|steps| - 1]), steps[|steps| - 1]);
    }
  }

  // ---------------------------------------------------------------- runs

  /** In every run in which no open call was told "0 nodes": the read that ends an open call stores, for every
      leaf of the mixer, the value in the daemon's cache when it served this call's request for all values;
      every other node, and every other mixer, keeps what it had. */
  lemma OpenStoresSnapshot(server: Server, steps: seq<Step>)
    requires server.Valid()
    requires var s := Run(server, steps).system; s.client.phase.Snapshotting? && ReadsReply(s) && s.stale == Never
    ensures var l := Run(server, steps);
      var s, t := l.system, ClientRead(l.system);
      && t.client.phase.Idle?
      && exists i :: 0 <= i < |l.services|
           && AnswersAt(l.services[i], |s.heard|, GetAllValues(s.client.phase.mixer), s.toClient[0])
           && l.services[i].after.Valid()
           && Stored(s.client.mixers, t.client.mixers, s.client.phase.mixer, l.services[i].after)
  {
    RunLogs(server, steps);
    RunLoads(server, steps);
    var l := Run(server, steps);
    var s := l.system;
    var i := FrontService(s, l.services);
    var v := l.services[i];
    SnapshotStored(s.client.mixers, s.client.phase.mixer, v.before, v.device);
    assert v.after == ServeAllValues(v.before, s.client.phase.mixer, v.device).server;
  }

  /** Nothing but that read moves a value that the client has cached. */
  lemma OnlySnapshotsStore(s: System, step: Step)
    requires s.Valid() && !(step.ClientReads? && s.client.phase.Snapshotting?)
    ensures forall m :: m in s.client.mixers ==>
      m in Next(s, step).client.mixers && Next(s, step).client.mixers[m].values == s.client.mixers[m].values
  {
    if Enabled(s, step) && step.ClientReads? && s.client.phase.Loading? && s.toClient[0].payload.Nodes? {
      KeepNodesValues(s.client.mixers, s.client.phase.mixer, s.toClient[0].payload.nodes);
    }
  }

  lemma {:induction false} KeepNodesValues(mixers: map<nat, Mixer>, mixer: nat, nodes: seq<NodeInfo>)
    requires AllValid(mixers)
    ensures forall m :: m in mixers ==>
      m in KeepNodes(mixers, mixer, nodes) && KeepNodes(mixers, mixer, nodes)[m].values == mixers[m].values
    decreases nodes
  {
    if nodes != [] {
      var ext := nodes[0];
      if 0 <= ext.ctrl < MAX_TMP_NODES {
        var m := if mixer in mixers then mixers[mixer] else EmptyMixer();
        KeepNodesValues(mixers[mixer := AddNode(m, ext.ctrl, ext)], mixer, nodes[1..]);
      } else {
        KeepNodesValues(mixers, mixer, nodes[1..]);
      }
    }
  }
}
