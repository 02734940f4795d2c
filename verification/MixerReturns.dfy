/** What the calls of the client return: in every run, what the device said to the daemon when it served
    that same request. */
module MixerReturns {
  import opened Basics
  import opened MixerCache
  import opened MixerDaemon
  import opened MixerProtocol
  import opened MixerCorrelation
  import opened MixerLoading
  import opened MixerRuns
  import MixerClient

  // ---------------------------------------------------------------- what was said

  /** The packet in place `j` of what was said is part of the answer that this service gave to the request. */
  ghost predicate AnswersAt(v: Service, j: nat, r: Request, p: Packet) {
    && v.Served? && v.before.Valid() && v.device.Valid() && v.request.InRange() && v.request == r
    && v.after == Serve(v.before, r, v.device).server && v.count == |Serve(v.before, r, v.device).sent|
    && v.first <= j < v.first + v.count && p == Serve(v.before, r, v.device).sent[j - v.first]
  }

  ghost predicate AnsweredAt(services: seq<Service>, said: seq<(Request, Packet)>, j: nat)
    requires j < |said|
  {
    exists i :: 0 <= i < |services| && AnswersAt(services[i], j, said[j].0, said[j].1)
  }

  /** Everything said, but for the welcome, is part of an answer. */
  ghost predicate AllAnswered(services: seq<Service>, said: seq<(Request, Packet)>) {
    forall j: nat :: 0 < j < |said| ==> AnsweredAt(services, said, j)
  }

  lemma AnsweredStays(services: seq<Service>, more: seq<Service>, said: seq<(Request, Packet)>)
    requires AllAnswered(services, said)
    ensures AllAnswered(services + more, said)
  {
    forall j: nat | 0 < j < |said| ensures AnsweredAt(services + more, said, j) {
      assert AnsweredAt(services, said, j);
      var i :| 0 <= i < |services| && AnswersAt(services[i], j, said[j].0, said[j].1);
      assert (services + more)[i] == services[i];
    }
  }

  lemma AnswerSaid(services: seq<Service>, said: seq<(Request, Packet)>, v: Service, sent: seq<Packet>)
    requires AllAnswered(services, said) && v.Served? && v.before.Valid() && v.device.Valid() && v.request.InRange()
    requires sent == Serve(v.before, v.request, v.device).sent && v.first == |said| && v.count == |sent|
    requires v.after == Serve(v.before, v.request, v.device).server
    ensures AllAnswered(services + [v], said + Pairs(v.request, sent))
  {
    var all, now := services + [v], said + Pairs(v.request, sent);
    AnsweredStays(services, [v], said);
    forall j: nat | 0 < j < |now| ensures AnsweredAt(all, now, j) {
      if j < |said| {
        assert AnsweredAt(all, said, j) && now[j] == said[j];
      } else {
        assert now[j] == (v.request, sent[j - |said|]);
        assert AnswersAt(all[|services|], j, now[j].0, now[j].1);
      }
    }
  }

  // ---------------------------------------------------------------- what a code means

  /** A call that began in phase `call` can stand in `phase`. */
  predicate Belongs(call: Phase, phase: Phase) {
    || (call == phase && (call.Welcoming? || call.Waiting? || call.Opening?))
    || (call.Welcoming? && phase == Waiting(Init))
    || (call.Opening? && (phase.Counting? || phase.Loading? || phase.Snapshotting?) && phase.mixer == call.mixer)
  }

  /** The phases in which the client can be blocked. */
  predicate Usual(phase: Phase) {
    && (phase.Waiting? ==>
          phase.request.Init? || phase.request.Exit? || phase.request.GetNodeInfo? || Ask(phase.request).Legal())
    && (phase.Loading? ==> 0 < phase.left <= phase.nrext)
  }

  /** The code is what this device makes of the call that returns from this phase: the number of mixers or nodes
      it has; 0 or -1 as it has what was asked for; -1 for an open call when it cannot open the mixer, count the
      nodes, or describe one of them, and otherwise 0 after the snapshot. */
  ghost predicate Kept(phase: Phase, d: Device, code: int) {
    match phase
    case Waiting(Init) => code == 0
    case Waiting(Exit) => code == 0
    case Waiting(GetNMixers) => code == d.nmixers
    case Waiting(GetNrext(_)) => code == d.nrext
    case Waiting(GetMixerInfo(_)) => code == if d.hasInfo then 0 else -1
    case Waiting(GetEnumInfo(_, _)) => code == if d.hasEnum then 0 else -1
    case Waiting(GetDescription(_, _)) => code == if d.hasDescription then 0 else -1
    case Waiting(GetNodeInfo(_, node, _)) => code == -1 && node !in d.nodeInfo
    case Opening(_) => code == -1 && d.openResult < 0
    case Counting(_) => code == -1 && d.nrext < 0
    case Loading(_, nrext, _) => code == -1 && exists i :: 0 <= i < nrext && i !in d.nodeInfo
    case Snapshotting(_) => code == 0
    case _ => false
  }

  lemma {:induction false} ErrorMeansMissing(s: Server, mixer: nat, i: nat, last: int, batch: seq<NodeInfo>, d: Device)
    requires s.Valid() && d.Valid() && mixer < MAX_TMP_MIXER
    requires exists p :: p in SendNodes(s, mixer, i, last, batch, d).sent && p.cmd < 0
    ensures exists k :: i <= k <= last && k !in d.nodeInfo
    decreases last + 1 - i
  {
    if i <= last && i in d.nodeInfo {
      var s', batch' := CacheNode(s, mixer, d.nodeInfo[i]), batch + [d.nodeInfo[i]];
      ErrorMeansMissing(s', mixer, i + 1, last, if |batch'| >= MAX_NODES then [] else batch', d);
    }
  }

  /** The answer of a service to the pending request, and the code it leads to. */
  lemma AnswerKept(phase: Phase, v: Service, j: nat, p: Packet, code: int)
    requires phase.Blocked() && Usual(phase) && !phase.Welcoming? && AnswersAt(v, j, phase.Pending(), p)
    requires phase.Waiting? && phase.request.GetNodeInfo? ==> phase.request.last == 0
    requires phase.Loading? ==> p.cmd < 0 && phase.nrext > 0
    requires CodeOf(phase, p) == Some(code)
    ensures Kept(phase, v.device, code)
  {
    if phase.Loading? {
      assert p in Serve(v.before, v.request, v.device).sent;
      if phase.nrext > 1 {
        ErrorMeansMissing(v.before, phase.mixer, 0, phase.nrext - 1, [], v.device);
      }
    } else {
      assert v.count == 1;
    }
  }

  // ---------------------------------------------------------------- the invariant

  /** One call has returned what its reply says; unless replies have been misheard, one that a service gave to
      its request. */
  ghost predicate ReturnedWell(c: Return, s: System, services: seq<Service>) {
    && c.at < |s.heard| && c.phase.Blocked() && s.heard[c.at].0 == c.phase.Pending()
    && CodeOf(c.phase, s.heard[c.at].1) == Some(c.code)
    && (s.stale != Misheard ==>
          exists i :: 0 <= i < |services| && AnswersAt(services[i], c.at, c.phase.Pending(), s.heard[c.at].1)
            && Kept(c.phase, services[i].device, c.code))
  }

  ghost predicate CallsCounted(calls: seq<Phase>, returned: seq<Return>, phase: Phase) {
    && |returned| <= |calls| <= |returned| + 1
    && (phase.Idle? ==> |calls| == |returned|)
    && (phase.Blocked() ==> |calls| == |returned| + 1 && Belongs(calls[|returned|], phase))
    && forall k :: 0 <= k < |returned| ==> Belongs(calls[k], returned[k].phase)
  }

  ghost predicate AllReturned(returned: seq<Return>, s: System, services: seq<Service>) {
    && (forall k :: 0 <= k < |returned| ==> ReturnedWell(returned[k], s, services))
    && forall k :: 0 < k < |returned| ==> returned[k - 1].at < returned[k].at
  }

  ghost predicate Logged(l: Log) {
    var s := l.system;
    && s.Valid() && Inv(s) && Usual(s.client.phase) && (!s.client.phase.Welcoming? ==> s.heard != [])
    && AllAnswered(l.services, s.said)
    && CallsCounted(l.calls, l.returned, s.client.phase)
    && AllReturned(l.returned, s, l.services)
  }

  lemma ReturnedStay(returned: seq<Return>, s: System, services: seq<Service>, s': System, more: seq<Service>)
    requires AllReturned(returned, s, services) && s.heard <= s'.heard && (s.stale == Misheard ==> s'.stale == Misheard)
    ensures AllReturned(returned, s', services + more)
  {
    var all := services + more;
    forall k | 0 <= k < |returned| ensures ReturnedWell(returned[k], s', all) {
      var c := returned[k];
      assert ReturnedWell(c, s, services) && s'.heard[c.at] == s.heard[c.at];
      if s'.stale != Misheard {
        var i :| 0 <= i < |services| && AnswersAt(services[i], c.at, c.phase.Pending(), s.heard[c.at].1)
          && Kept(c.phase, services[i].device, c.code);
        assert all[i] == services[i];
      }
    }
  }

  lemma CallLogs(l: Log, call: Call)
    requires Logged(l) && l.system.client.phase.Idle? && call.Legal()
    ensures Logged(LogNext(l, ClientCalls(call)))
  {
    CallKeeps(l.system, call);
    ReturnedStay(l.returned, l.system, l.services, ClientCall(l.system, call), []);
    assert l.services + [] == l.services;
  }

  /** What ends a call and what does not. */
  lemma CodeEnds(c: Client, p: Packet)
    requires c.Valid() && c.phase.Blocked() && Usual(c.phase)
    ensures var phase := Hear(c, p).client.phase;
      && !phase.Welcoming? && Usual(phase)
      && (CodeOf(c.phase, p).Some? ==> !phase.Blocked())
      && (phase.Idle? ==> CodeOf(c.phase, p).Some?)
      && (phase.Blocked() ==> forall call :: Belongs(call, c.phase) ==> Belongs(call, phase))
  {
  }

  /** The reply in front, when replies are in step, was said to the pending request. */
  lemma FrontSaid(s: System)
    requires s.Valid() && Aligned(s) && ReadsReply(s) && !s.client.phase.Welcoming?
    ensures |s.heard| < |s.said| && s.said[|s.heard|] == (s.client.phase.Pending(), s.toClient[0])
    ensures s.client.phase.Loading? && s.toClient[0].cmd >= 0 ==>
      s.toClient[0].payload.Nodes? && |s.toClient[0].payload.nodes| == Min(s.client.phase.left, MAX_NODES)
  {
    TakeReply(s);
    if s.client.phase.Loading? {
      BatchesFirst(s.toClient[0], Solicited(s.toClient[1..]), s.client.phase.left);
    }
  }

  /** A service gave it. */
  lemma FrontService(s: System, services: seq<Service>) returns (i: nat)
    requires s.Valid() && Aligned(s) && ReadsReply(s) && AllAnswered(services, s.said)
    requires s.heard != [] && !s.client.phase.Welcoming?
    ensures i < |services| && AnswersAt(services[i], |s.heard|, s.client.phase.Pending(), s.toClient[0])
  {
    FrontSaid(s);
    var j := |s.heard|;
    assert AnsweredAt(services, s.said, j);
    i :| 0 <= i < |services| && AnswersAt(services[i], j, s.client.phase.Pending(), s.toClient[0]);
  }

  lemma FrontAnswered(s: System, services: seq<Service>, code: int) returns (i: nat)
    requires s.Valid() && Aligned(s) && ReadsReply(s) && Usual(s.client.phase) && AllAnswered(services, s.said)
    requires s.heard != [] && !s.client.phase.Welcoming? && CodeOf(s.client.phase, s.toClient[0]) == Some(code)
    ensures i < |services| && AnswersAt(services[i], |s.heard|, s.client.phase.Pending(), s.toClient[0])
    ensures Kept(s.client.phase, services[i].device, code)
  {
    FrontSaid(s);
    i := FrontService(s, services);
    AnswerKept(s.client.phase, services[i], |s.heard|, s.toClient[0], code);
  }

  lemma ReplyCounted(calls: seq<Phase>, returned: seq<Return>, c: Client, p: Packet, at: nat)
    requires c.Valid() && c.phase.Blocked() && Usual(c.phase) && CallsCounted(calls, returned, c.phase)
    ensures var code := CodeOf(c.phase, p);
      CallsCounted(calls, returned + if code.Some? then [Return(c.phase, at, code.value)] else [],
                   Hear(c, p).client.phase)
  {
    CodeEnds(c, p);
  }

  /** The call that the reply ends. */
  lemma NewReturn(s: System, services: seq<Service>, code: int)
    requires s.Valid() && Inv(s) && ReadsReply(s) && Usual(s.client.phase) && AllAnswered(services, s.said)
    requires (!s.client.phase.Welcoming? ==> s.heard != []) && CodeOf(s.client.phase, s.toClient[0]) == Some(code)
    ensures ReturnedWell(Return(s.client.phase, |s.heard|, code), ClientRead(s), services)
  {
    var s' := ClientRead(s);
    assert s'.heard == s.heard + [(s.client.phase.Pending(), s.toClient[0])];
    if s'.stale != Misheard {
      InStep(s);
      var _ := FrontAnswered(s, services, code);
    }
  }

  lemma ReplyLogs(l: Log)
    requires Logged(l) && ReadsReply(l.system)
    ensures Logged(LogNext(l, ClientReads))
  {
    var s, s' := l.system, ClientRead(l.system);
    var code := CodeOf(s.client.phase, s.toClient[0]);
    ReadKeeps(s);
    CodeEnds(s.client, s.toClient[0]);
    ReplyCounted(l.calls, l.returned, s.client, s.toClient[0], |s.heard|);
    ReturnedStay(l.returned, s, l.services, s', []);
    assert l.services + [] == l.services;
    if code.Some? {
      NewReturn(s, l.services, code.value);
      OneMoreReturned(l.returned, s', l.services, Return(s.client.phase, |s.heard|, code.value));
    } else {
      assert l.returned + [] == l.returned;
    }
  }

  /** A reply that is not misheard is read in step, and the welcome is what it should be. */
  lemma InStep(s: System)
    requires s.Valid() && Inv(s) && ReadsReply(s) && ClientRead(s).stale != Misheard
    ensures Aligned(s) && (s.client.phase.Welcoming? ==> CodeOf(s.client.phase, s.toClient[0]).None?)
  {
    if s.client.phase.Welcoming? {
      ReplyOnItsWay(s);
    }
  }

  lemma OneMoreReturned(returned: seq<Return>, s: System, services: seq<Service>, c: Return)
    requires AllReturned(returned, s, services) && ReturnedWell(c, s, services)
    requires forall k :: 0 <= k < |returned| ==> returned[k].at < c.at
    ensures AllReturned(returned + [c], s, services)
  {
  }

  /** Steps of the client that are no reply. */
  lemma EventLogs(l: Log, step: Step)
    requires Logged(l) && Enabled(l.system, step)
    requires step.ClientPolls? || (step.ClientReads? && !ReadsReply(l.system))
    ensures Logged(LogNext(l, step))
  {
    var s, s' := l.system, Next(l.system, step);
    NextKeeps(s, step);
    ReturnedStay(l.returned, s, l.services, s', []);
    assert l.services + [] == l.services && s'.heard == s.heard && s'.said == s.said;
    assert s'.client == HandleEvent(s.client, s.toClient[0]);
    if step.ClientReads? {
      assert l.returned + [] == l.returned;
    }
  }

  lemma ServeLogs(l: Log, d: Device)
    requires Logged(l) && l.system.toServer != [] && d.Valid()
    ensures Logged(LogNext(l, ServerServes(d)))
  {
    var s, s' := l.system, ServerServe(l.system, d);
    var l' := LogNext(l, ServerServes(d));
    assert s.toServer[0] in s.toServer;
    ServeKeeps(s, d);
    var v := l'.services[|l.services|];
    AnswerSaid(l.services, s.said, v, Serve(s.server, s.toServer[0], d).sent);
    ReturnedStay(l.returned, s, l.services, s', [v]);
  }

  lemma PollLogs(l: Log, devices: seq<Device>, nmixers: int)
    requires Logged(l) && Enabled(l.system, ServerPolls(devices, nmixers))
    ensures Logged(LogNext(l, ServerPolls(devices, nmixers)))
  {
    var s := l.system;
    PollKeeps(s, devices, nmixers);
    AnsweredStays(l.services, [Polled(devices, nmixers)], s.said);
    ReturnedStay(l.returned, s, l.services, ServerPoll(s, devices, nmixers), [Polled(devices, nmixers)]);
  }

  lemma StepLogs(l: Log, step: Step)
    requires Logged(l)
    ensures Logged(LogNext(l, step))
  {
    if Enabled(l.system, step) {
      match step
      case ClientCalls(call) => CallLogs(l, call);
      case ClientReads => if ReadsReply(l.system) { ReplyLogs(l); } else { EventLogs(l, step); }
      case ClientPolls => EventLogs(l, step);
      case ServerServes(d) => ServeLogs(l, d);
      case ServerPolls(devices, nmixers) => PollLogs(l, devices, nmixers);
    }
  }

  lemma {:induction false} RunLogs(server: Server, steps: seq<Step>)
    requires server.Valid()
    ensures Logged(Run(server, steps))
  {
    if steps == [] {
      InitAligned(server);
    } else {
      RunLogs(server, steps[..|steps| - 1]);
      StepLogs(Run(server, steps[..|steps| - 1]), steps[|steps| - 1]);
    }
  }

  /** The reply that ended the call was said to the request then pending, by a service whose device makes this
      code of the call. */
  ghost predicate ServedFor(c: Return, said: seq<(Request, Packet)>, services: seq<Service>) {
    && c.phase.Blocked() && c.at < |said| && said[c.at].0 == c.phase.Pending()
    && exists i :: 0 <= i < |services| && Serves(services[i], c) && Kept(c.phase, services[i].device, c.code)
  }

  predicate Serves(v: Service, c: Return)
    requires c.phase.Blocked()
  {
    v.Served? && v.request == c.phase.Pending() && v.first <= c.at < v.first + v.count
  }

  /** In every run: every call that had to wait has returned, or is the one that waits, and the codes come in the
      order of the calls, each decided by a reply of its own. Unless replies have been misheard, a service gave
      that reply to that request, and the code is what its device makes of the call. */
  lemma CallsReturn(server: Server, steps: seq<Step>)
    requires server.Valid()
    ensures var l := Run(server, steps);
      && CallsCounted(l.calls, l.returned, l.system.client.phase)
      && (forall k :: 0 < k < |l.returned| ==> l.returned[k - 1].at < l.returned[k].at)
      && (l.system.stale != Misheard ==>
            forall k :: 0 <= k < |l.returned| ==> ServedFor(l.returned[k], l.system.said, l.services))
  {
    RunLogs(server, steps);
    RepliesCorrelate(server, steps);
    var l := Run(server, steps);
    if l.system.stale != Misheard {
      forall k | 0 <= k < |l.returned| ensures ServedFor(l.returned[k], l.system.said, l.services) {
        var c := l.returned[k];
        assert ReturnedWell(c, l.system, l.services) && l.system.said[c.at] == l.system.heard[c.at];
        var i :| 0 <= i < |l.services|
          && AnswersAt(l.services[i], c.at, c.phase.Pending(), l.system.heard[c.at].1)
          && Kept(c.phase, l.services[i].device, c.code);
        assert Serves(l.services[i], c);
      }
    }
  }

  /** A call for a number returns it, and an open call 0 or -1, and 0 exactly after a snapshot that is no error. */
  predicate TellsReply(call: Phase, phase: Phase, p: Packet, code: int) {
    && (phase.Waiting? && (phase.request.GetNMixers? || phase.request.GetNrext?) ==> code == p.cmd)
    && (call.Opening? ==> code == 0 || code == -1)
    && (call.Opening? ==> (code == 0 <==> phase == Snapshotting(call.mixer) && p.cmd >= 0))
  }

  lemma CodeTells(call: Phase, phase: Phase, p: Packet, code: int)
    requires Belongs(call, phase) && CodeOf(phase, p) == Some(code)
    ensures TellsReply(call, phase, p, code)
  {
  }

  /** The same whatever the reply, in step or not. */
  lemma CodesAreReplies(server: Server, steps: seq<Step>, k: nat)
    requires server.Valid() && k < |Run(server, steps).returned|
    ensures var l := Run(server, steps);
      && k < |l.calls| && l.returned[k].at < |l.system.heard|
      && TellsReply(l.calls[k], l.returned[k].phase, l.system.heard[l.returned[k].at].1, l.returned[k].code)
  {
    RunLogs(server, steps);
    var l := Run(server, steps);
    var c := l.returned[k];
    assert ReturnedWell(c, l.system, l.services) && Belongs(l.calls[k], c.phase);
    CodeTells(l.calls[k], c.phase, l.system.heard[c.at].1, c.code);
  }

  // ---------------------------------------------------------------- the calls as they are written

  /** The client reads until its call is over or everything has been read. */
  ghost function LogReadOn(l: Log): (l': Log)
    requires l.system.Valid()
    decreases |l.system.toClient|
  {
    if l.system.client.phase.Blocked() && l.system.toClient != [] then LogReadOn(LogNext(l, ClientReads)) else l
  }

  lemma CodeStops(c: Client, p: Packet)
    requires c.Valid() && c.phase.Blocked() && CodeOf(c.phase, p).Some?
    ensures !Hear(c, p).client.phase.Blocked()
  {
  }

  /** The code that a call returns on the packets that come is the one that a run records. */
  lemma {:induction false} ReadsReturn(l: Log)
    requires l.system.Valid()
    ensures var t, a := LogReadOn(l), MixerClient.Attend(l.system.client, l.system.toClient);
      && t.system.client == a.client && t.system.toClient == a.rest
      && (a.code.None? ==> t.returned == l.returned)
      && (a.code.Some? ==> |t.returned| == |l.returned| + 1 && t.returned[..|l.returned|] == l.returned)
      && (a.code.Some? ==> t.returned[|l.returned|].code == a.code.value)
    decreases |l.system.toClient|
  {
    var s := l.system;
    if s.client.phase.Blocked() && s.toClient != [] {
      var l' := LogNext(l, ClientReads);
      ReadsReturn(l');
      if ReadsReply(s) && CodeOf(s.client.phase, s.toClient[0]).Some? {
        CodeStops(s.client, s.toClient[0]);
      }
    }
  }
}
