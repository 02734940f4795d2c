/** What the daemon's flags follow from the requests it has served, and what its polls put into the queue. */
module MixerService {
  import opened Basics
  import opened MixerCache
  import opened MixerDaemon
  import opened MixerProtocol
  import opened MixerRuns

  // ---------------------------------------------------------------- requests and flags

  predicate Asked(v: Service, r: Request) {
    v.Served? && v.request == r
  }

  predicate Stops(v: Service) {
    Asked(v, Init) || Asked(v, Exit)
  }

  /** START_EVENTS was served in place `j`, and nothing stopped it since. */
  ghost predicate StartedAt(services: seq<Service>, j: int) {
    && 0 <= j < |services| && Asked(services[j], StartEvents)
    && forall k :: j < k < |services| ==> !Stops(services[k])
  }

  /** START_EVENTS was served after the last INIT or EXIT; or neither has been served, and events were on. */
  ghost predicate EventsOn(services: seq<Service>, initially: bool) {
    || (exists j :: StartedAt(services, j))
    || (initially && forall k :: 0 <= k < |services| ==> !Stops(services[k]))
  }

  predicate Closes(v: Service, mixer: nat) {
    Asked(v, CloseMixer(mixer)) || Asked(v, Exit)
  }

  ghost predicate OpenedAt(services: seq<Service>, mixer: nat, j: int) {
    && 0 <= j < |services| && Asked(services[j], OpenMixer(mixer))
    && forall k :: j < k < |services| ==> !Closes(services[k], mixer)
  }

  /** The mixer was opened after the last CLOSE for it or EXIT; or neither has been served, and it was open. */
  ghost predicate IsOpen(services: seq<Service>, mixer: nat, initially: bool) {
    || (exists j :: OpenedAt(services, mixer, j))
    || (initially && forall k :: 0 <= k < |services| ==> !Closes(services[k], mixer))
  }

  /** One more than the place of the last request for the number of mixers, 0 without one. */
  function Counted(services: seq<Service>): (n: nat)
    ensures n <= |services| && (n > 0 ==> Asked(services[n - 1], GetNMixers))
    ensures forall k :: n <= k < |services| ==> !Asked(services[k], GetNMixers)
  {
    if services == [] then 0
    else if Asked(services[|services| - 1], GetNMixers) then |services|
    else Counted(services[..|services| - 1])
  }

  /** The largest of the last number asked for, or the first one, and of the numbers that polls found since. */
  ghost predicate IsCount(services: seq<Service>, initially: int, count: int) {
    var n := Counted(services);
    var told := if n > 0 then services[n - 1].device.nmixers else initially;
    && told <= count
    && (forall k :: n <= k < |services| && services[k].Polled? ==> services[k].nmixers <= count)
    && (count == told || exists k :: n <= k < |services| && services[k].Polled? && services[k].nmixers == count)
  }

  lemma EventsMore(services: seq<Service>, v: Service, initially: bool)
    ensures EventsOn(services + [v], initially) <==>
      Asked(v, StartEvents) || (!Stops(v) && EventsOn(services, initially))
  {
    var all := services + [v];
    assert all[|services|] == v && forall k :: 0 <= k < |services| ==> all[k] == services[k];
    if Asked(v, StartEvents) {
      assert StartedAt(all, |services|);
    } else if Stops(v) {
      assert Stops(all[|services|]);
    } else {
      forall j ensures StartedAt(all, j) <==> StartedAt(services, j) {
      }
      assert (forall k :: 0 <= k < |all| ==> !Stops(all[k]))
        <==> forall k :: 0 <= k < |services| ==> !Stops(services[k]);
    }
  }

  lemma OpenMore(services: seq<Service>, v: Service, mixer: nat, initially: bool)
    ensures IsOpen(services + [v], mixer, initially) <==>
      Asked(v, OpenMixer(mixer)) || (!Closes(v, mixer) && IsOpen(services, mixer, initially))
  {
    var all := services + [v];
    assert all[|services|] == v && forall k :: 0 <= k < |services| ==> all[k] == services[k];
    if Asked(v, OpenMixer(mixer)) {
      assert OpenedAt(all, mixer, |services|);
    } else if Closes(v, mixer) {
      assert Closes(all[|services|], mixer);
    } else {
      forall j ensures OpenedAt(all, mixer, j) <==> OpenedAt(services, mixer, j) {
      }
      assert (forall k :: 0 <= k < |all| ==> !Closes(all[k], mixer))
        <==> forall k :: 0 <= k < |services| ==> !Closes(services[k], mixer);
    }
  }

  lemma CountMore(services: seq<Service>, v: Service, initially: int, count: int, count': int)
    requires IsCount(services, initially, count)
    requires count' ==
      if Asked(v, GetNMixers) then v.device.nmixers
      else if v.Polled? && v.nmixers > count then v.nmixers else count
    ensures IsCount(services + [v], initially, count')
  {
    var all := services + [v];
    assert all[..|services|] == services && all[|services|] == v;
    if !Asked(v, GetNMixers) {
      var n := Counted(services);
      assert Counted(all) == n && (n > 0 ==> all[n - 1] == services[n - 1]);
      forall k | n <= k < |all| && all[k].Polled? ensures all[k].nmixers <= count' {
        if k < |services| {
          assert services[k] == all[k];
        }
      }
      if k :| n <= k < |services| && services[k].Polled? && services[k].nmixers == count {
        assert all[k].nmixers == count;
      }
    }
  }

  // ---------------------------------------------------------------- what serving does to them

  lemma {:induction false} SendNodesFlags(s: Server, mixer: nat, i: nat, last: int, batch: seq<NodeInfo>, d: Device)
    requires s.Valid() && d.Valid() && mixer < MAX_TMP_MIXER
    ensures var t := SendNodes(s, mixer, i, last, batch, d).server;
      t.polling == s.polling && t.open == s.open && t.numMixers == s.numMixers
    decreases last + 1 - i
  {
    if i <= last && i in d.nodeInfo {
      var s', batch' := CacheNode(s, mixer, d.nodeInfo[i]), batch + [d.nodeInfo[i]];
      SendNodesFlags(s', mixer, i + 1, last, if |batch'| >= MAX_NODES then [] else batch', d);
    }
  }

  lemma ServeFlags(s: Server, r: Request, d: Device)
    requires s.Valid() && d.Valid() && r.InRange()
    ensures var t := Serve(s, r, d).server;
      && t.polling == (r == StartEvents || (r != Init && r != Exit && s.polling))
      && (forall m :: 0 <= m < MAX_TMP_MIXER ==>
            (t.open[m] <==> r == OpenMixer(m) || (r != CloseMixer(m) && r != Exit && s.open[m])))
      && t.numMixers == if r == GetNMixers then d.nmixers else s.numMixers
  {
    if r.GetNodeInfo? && r.last > r.first {
      SendNodesFlags(s, r.mixer, r.first, r.last, [], d);
    }
  }

  lemma {:induction false} PollMixersFlags(s: Server, n: nat, devices: seq<Device>)
    requires s.Valid() && n <= MAX_TMP_MIXER == |devices| && forall d :: d in devices ==> d.Valid()
    ensures var t := PollMixers(s, n, devices).server;
      t.polling == s.polling && t.open == s.open && t.numMixers == s.numMixers
  {
    if n > 0 {
      PollMixersFlags(s, n - 1, devices);
    }
  }

  // ---------------------------------------------------------------- runs

  /** The daemon's flags are what the services say. */
  ghost predicate Accounted(initially: Server, s: Server, services: seq<Service>)
    requires initially.Valid() && s.Valid()
  {
    && (s.polling <==> EventsOn(services, initially.polling))
    && (forall m :: 0 <= m < MAX_TMP_MIXER ==> (s.open[m] <==> IsOpen(services, m, initially.open[m])))
    && IsCount(services, initially.numMixers, s.numMixers)
  }

  lemma OneServiceMore(initially: Server, s: Server, services: seq<Service>, v: Service, s': Server)
    requires initially.Valid() && s.Valid() && s'.Valid() && Accounted(initially, s, services)
    requires s'.polling == (Asked(v, StartEvents) || (!Stops(v) && s.polling))
    requires forall m :: 0 <= m < MAX_TMP_MIXER ==>
      (s'.open[m] <==> Asked(v, OpenMixer(m)) || (!Closes(v, m) && s.open[m]))
    requires s'.numMixers ==
      if Asked(v, GetNMixers) then v.device.nmixers
      else if v.Polled? && v.nmixers > s.numMixers then v.nmixers else s.numMixers
    ensures Accounted(initially, s', services + [v])
  {
    EventsMore(services, v, initially.polling);
    forall m | 0 <= m < MAX_TMP_MIXER
      ensures s'.open[m] <==> IsOpen(services + [v], m, initially.open[m])
    {
      OpenMore(services, v, m, initially.open[m]);
    }
    CountMore(services, v, initially.numMixers, s.numMixers, s'.numMixers);
  }

  lemma StepAccounts(initially: Server, l: Log, step: Step)
    requires initially.Valid() && l.system.Valid() && Accounted(initially, l.system.server, l.services)
    ensures var l' := LogNext(l, step); Accounted(initially, l'.system.server, l'.services)
  {
    var s, l' := l.system, LogNext(l, step);
    if Enabled(s, step) && step.ServerServes? {
      assert s.toServer[0] in s.toServer;
      ServeFlags(s.server, s.toServer[0], step.device);
      OneServiceMore(initially, s.server, l.services, l'.services[|l.services|], l'.system.server);
    } else if Enabled(s, step) && step.ServerPolls? {
      PollMixersFlags(s.server, if s.server.numMixers < 0 then 0 else s.server.numMixers, step.devices);
      OneServiceMore(initially, s.server, l.services, l'.services[|l.services|], l'.system.server);
    }
  }

  /** In every run the daemon polls exactly if START_EVENTS came after the last INIT or EXIT, a mixer is open
      exactly if its last OPEN came after its last CLOSE or EXIT, and the number of mixers is the one last asked
      for, raised by what polls have found since. */
  lemma {:induction false} FlagsFollowRequests(server: Server, steps: seq<Step>)
    requires server.Valid()
    ensures var l := Run(server, steps); Accounted(server, l.system.server, l.services)
  {
    if steps == [] {
      assert Counted([]) == 0;
    } else {
      FlagsFollowRequests(server, steps[..|steps| - 1]);
      StepAccounts(server, Run(server, steps[..|steps| - 1]), steps[|steps| - 1]);
    }
  }

  // ---------------------------------------------------------------- polls and events

  /** One of the packets is an event that says that the node has this value now. */
  ghost predicate Tells(packets: seq<Packet>, mixer: nat, i: int, value: int) {
    exists k :: 0 <= k < |packets| && TellsOf(packets[k], mixer, i, value)
  }

  predicate TellsOf(p: Packet, mixer: nat, i: int, value: int) {
    p.unsolicited && p.cmd == EVENT_VALUE && p.p2 == mixer && p.payload.Values? && Rec(i, value) in p.payload.records
  }

  /** The daemon has something to tell about a node of an open mixer: the read differs from the cached value. */
  predicate HasNews(s: Server, mixer: nat, d: Device, i: int, value: int)
    requires s.Valid() && d.Valid() && mixer < MAX_TMP_MIXER
  {
    && s.open[mixer] && mixer in s.mixers && News(s.mixers[mixer], d.Count(), d.values, i)
    && value == Refreshed(s.mixers[mixer], d.Count(), d.values, i)
  }

  lemma TellsConcat(a: seq<Packet>, b: seq<Packet>, mixer: nat, i: int, value: int)
    ensures Tells(a + b, mixer, i, value) <==> Tells(a, mixer, i, value) || Tells(b, mixer, i, value)
  {
    if Tells(a, mixer, i, value) {
      var k :| 0 <= k < |a| && TellsOf(a[k], mixer, i, value);
      assert (a + b)[k] == a[k];
    }
    if Tells(b, mixer, i, value) {
      var k :| 0 <= k < |b| && TellsOf(b[k], mixer, i, value);
      assert (a + b)[|a| + k] == b[k];
    }
  }

  lemma PollOneTells(s: Server, mixer: nat, d: Device, m: nat, i: int, value: int)
    requires s.Valid() && d.Valid() && mixer < MAX_TMP_MIXER && m < MAX_TMP_MIXER
    ensures Tells(PollOne(s, mixer, d).sent, m, i, value) <==> m == mixer && HasNews(s, mixer, d, i, value)
    ensures m != mixer ==> var t := PollOne(s, mixer, d).server;
      t.open == s.open && (m in t.mixers <==> m in s.mixers) && (m in s.mixers ==> t.mixers[m] == s.mixers[m])
  {
    if s.open[mixer] && mixer in s.mixers {
      PollReportsNews(s.mixers[mixer], d.Count(), d.values);
      var records := PollRecords(s.mixers[mixer], d.Count(), d.values);
      assert Rec(i, value) in records <==> HasNews(s, mixer, d, i, value);
      if records != [] {
        assert PollOne(s, mixer, d).sent[0] == ValueEvent(mixer, records);
      }
    }
  }

  /** The polls of the mixers below `n` tell exactly the news of those. */
  lemma {:induction false} PollMixersTell(s: Server, n: nat, devices: seq<Device>, m: nat, i: int, value: int)
    requires s.Valid() && n <= MAX_TMP_MIXER == |devices| && m < MAX_TMP_MIXER && forall d :: d in devices ==> d.Valid()
    ensures var o := PollMixers(s, n, devices);
      && (Tells(o.sent, m, i, value) <==> m < n && HasNews(s, m, devices[m], i, value))
      && (m >= n ==> o.server.open == s.open && (m in o.server.mixers <==> m in s.mixers)
                     && (m in s.mixers ==> o.server.mixers[m] == s.mixers[m]))
  {
    if n > 0 {
      PollMixersTell(s, n - 1, devices, m, i, value);
      var before := PollMixers(s, n - 1, devices);
      PollOneTells(before.server, n - 1, devices[n - 1], m, i, value);
      TellsConcat(before.sent, PollOne(before.server, n - 1, devices[n - 1]).sent, m, i, value);
    }
  }

  lemma PollTells(s: Server, devices: seq<Device>, nmixers: int, m: nat, i: int, value: int)
    requires s.Valid() && nmixers <= MAX_TMP_MIXER == |devices| && m < MAX_TMP_MIXER
    requires forall d :: d in devices ==> d.Valid()
    ensures Tells(Poll(s, devices, nmixers).sent, m, i, value) <==>
      m < s.numMixers && HasNews(s, m, devices[m], i, value)
  {
    var n := if s.numMixers < 0 then 0 else s.numMixers;
    PollMixersTell(s, n, devices, m, i, value);
    if nmixers > s.numMixers {
      TellsConcat(PollMixers(s, n, devices).sent, [NewMixerEvent(nmixers)], m, i, value);
    }
  }

  /** A poll tells of new mixers exactly when there are more than the daemon counted, with their number. */
  lemma PollTellsCount(s: Server, devices: seq<Device>, nmixers: int)
    requires s.Valid() && nmixers <= MAX_TMP_MIXER == |devices| && forall d :: d in devices ==> d.Valid()
    ensures var sent := Poll(s, devices, nmixers).sent;
      && ((exists p :: p in sent && p.cmd == EVENT_NEWMIXER) <==> nmixers > s.numMixers)
      && forall p :: p in sent && p.cmd == EVENT_NEWMIXER ==> p.unsolicited && p.p1 == nmixers
  {
    var n := if s.numMixers < 0 then 0 else s.numMixers;
    PollMixersValues(s, n, devices);
    if nmixers > s.numMixers {
      assert NewMixerEvent(nmixers) in Poll(s, devices, nmixers).sent;
    }
  }

  lemma {:induction false} PollMixersValues(s: Server, n: nat, devices: seq<Device>)
    requires s.Valid() && n <= MAX_TMP_MIXER == |devices| && forall d :: d in devices ==> d.Valid()
    ensures forall p :: p in PollMixers(s, n, devices).sent ==> p.cmd == EVENT_VALUE
  {
    if n > 0 {
      PollMixersValues(s, n - 1, devices);
    }
  }

  /** When START_EVENTS has come after the last INIT or EXIT, the daemon can poll at any time, and the poll puts
      an event with a node and a value into the queue exactly if the mixer is open, cached, and below the
      number of mixers, and the node is a leaf whose read is this value and differs from the cached one. */
  lemma PollsTellNews(server: Server, steps: seq<Step>, devices: seq<Device>, nmixers: int, m: nat, i: int, value: int)
    requires server.Valid() && nmixers <= MAX_TMP_MIXER == |devices| && m < MAX_TMP_MIXER
    requires forall d :: d in devices ==> d.Valid()
    requires EventsOn(Run(server, steps).services, server.polling)
    ensures var l, poll := Run(server, steps), ServerPolls(devices, nmixers);
      var s, queue := l.system.server, Next(l.system, poll).toClient;
      && Enabled(l.system, poll) && l.system.toClient <= queue
      && (Tells(queue[|l.system.toClient|..], m, i, value) <==>
            && IsOpen(l.services, m, server.open[m]) && m < s.numMixers && m in s.mixers
            && News(s.mixers[m], devices[m].Count(), devices[m].values, i)
            && value == Refreshed(s.mixers[m], devices[m].Count(), devices[m].values, i))
  {
    FlagsFollowRequests(server, steps);
    var l := Run(server, steps);
    PollTells(l.system.server, devices, nmixers, m, i, value);
  }
}
