/** What the client can know: the values it was sent, folded in the daemon's order, are the values in
    the daemon's cache. */
module MixerView {
  import opened Basics
  import opened MixerCache
  import opened MixerDaemon
  import opened MixerProtocol

  type View = map<(nat, int), int>

  function ApplyRecords(v: View, mixer: nat, records: seq<Rec>): View {
    if records == [] then v
    else
      var last := records[|records| - 1];
      ApplyRecords(v, mixer, records[..|records| - 1])[(mixer, last.node) := last.value]
  }

  /** Value packets, solicited or not, name their mixer in `p2`. */
  function ApplyPacket(v: View, p: Packet): View {
    if p.payload.Values? && p.p2 >= 0 then ApplyRecords(v, p.p2, p.payload.records) else v
  }

  function ApplyPackets(v: View, packets: seq<Packet>): View {
    if packets == [] then v else ApplyPacket(ApplyPackets(v, packets[..|packets| - 1]), packets[|packets| - 1])
  }

  function ApplyHappening(v: View, h: Happening): View {
    match h
    case Sent(p) => ApplyPacket(v, p)
    case Stored(m, node, value) => v[(m, node) := value]
    case NodesCached(_, _) => v
  }

  /** Everything that happened, folded in the daemon's order. */
  function Fold(history: seq<Happening>): View {
    if history == [] then map[] else ApplyHappening(Fold(history[..|history| - 1]), history[|history| - 1])
  }

  /** A snapshot of the mixer's values was sent, and the node has not become a leaf since. */
  predicate Covered(history: seq<Happening>, mixer: nat, i: int) {
    if history == [] then false
    else match history[|history| - 1]
      case Sent(p) =>
        || (p.cmd == CMD_GET_ALL_VALUES && p.payload.Values? && p.p2 == mixer)
        || Covered(history[..|history| - 1], mixer, i)
      case Stored(_, _, _) => Covered(history[..|history| - 1], mixer, i)
      case NodesCached(m, gained) => !(m == mixer && i in gained) && Covered(history[..|history| - 1], mixer, i)
  }

  /** Every value in the view is the cached one. */
  ghost predicate Faithful(v: View, s: Server) {
    forall m, i :: (m, i) in v ==>
      m in s.mixers && s.mixers[m].Valid() && 0 <= i < MAX_TMP_NODES && v[(m, i)] == s.mixers[m].values[i]
  }

  /** The node is in the view, if it is a leaf. */
  ghost predicate Complete(v: View, s: Server, mixer: nat, i: int) {
    mixer in s.mixers && s.mixers[mixer].Valid() && s.mixers[mixer].IsLeaf(i) ==> (mixer, i) in v
  }

  // ---------------------------------------------------------------- folding

  lemma {:induction false} RecordsApplied(v: View, mixer: nat, records: seq<Rec>)
    ensures var r := ApplyRecords(v, mixer, records);
      && (forall k :: k in v ==> k in r)
      && (forall j :: 0 <= j < |records| ==> (mixer, records[j].node) in r)
      && forall k :: k in r ==>
           (k in v && r[k] == v[k] && (k.0 == mixer ==> forall j :: 0 <= j < |records| ==> records[j].node != k.1))
           || (k.0 == mixer && Rec(k.1, r[k]) in records)
  {
    if records != [] {
      var front, last := records[..|records| - 1], records[|records| - 1];
      RecordsApplied(v, mixer, front);
      assert records == front + [last];
    }
  }

  lemma {:induction false} FoldConcat(history: seq<Happening>, packets: seq<Packet>)
    ensures Fold(history + SentAll(packets)) == ApplyPackets(Fold(history), packets)
  {
    if packets == [] {
      assert history + SentAll(packets) == history;
    } else {
      var all := history + SentAll(packets);
      assert all[..|all| - 1] == history + SentAll(packets[..|packets| - 1]);
      FoldConcat(history, packets[..|packets| - 1]);
    }
  }

  /** The fold of a history in which nothing was stored depends on its packets only. */
  function PacketsOf(history: seq<Happening>): seq<Packet> {
    if history == [] then []
    else
      var last := history[|history| - 1];
      PacketsOf(history[..|history| - 1]) + if last.Sent? then [last.packet] else []
  }

  ghost predicate NothingStored(history: seq<Happening>) {
    forall h :: h in history ==> !h.Stored?
  }

  lemma {:induction false} FoldOfPackets(history: seq<Happening>)
    requires NothingStored(history)
    ensures Fold(history) == ApplyPackets(map[], PacketsOf(history))
  {
    if history != [] {
      var front, last := history[..|history| - 1], history[|history| - 1];
      assert last in history;
      FoldOfPackets(front);
      if last.Sent? {
        assert PacketsOf(history) == PacketsOf(front) + [last.packet];
        assert PacketsOf(history)[..|PacketsOf(history)| - 1] == PacketsOf(front);
      } else {
        assert PacketsOf(history) == PacketsOf(front);
      }
    }
  }

  lemma {:induction false} PacketsOfConcat(history: seq<Happening>, more: seq<Happening>)
    ensures PacketsOf(history + more) == PacketsOf(history) + PacketsOf(more)
  {
    if more == [] {
      assert history + more == history;
    } else {
      var all := history + more;
      assert all[..|all| - 1] == history + more[..|more| - 1];
      PacketsOfConcat(history, more[..|more| - 1]);
    }
  }

  lemma {:induction false} PacketsOfSent(packets: seq<Packet>)
    ensures PacketsOf(SentAll(packets)) == packets
  {
    if packets != [] {
      var all := SentAll(packets);
      assert all[..|all| - 1] == SentAll(packets[..|packets| - 1]);
      PacketsOfSent(packets[..|packets| - 1]);
    }
  }

  // ---------------------------------------------------------------- single operations

  /** The records tell of every value that changed, and only tell the truth. */
  ghost predicate Tell(records: seq<Rec>, before: Mixer, after: Mixer)
    requires before.Valid() && after.Valid()
  {
    && (forall i :: 0 <= i < MAX_TMP_NODES && after.values[i] != before.values[i] ==>
          Rec(i, after.values[i]) in records)
    && (forall r :: r in records ==> 0 <= r.node < MAX_TMP_NODES && r.value == after.values[r.node])
  }

  lemma TellKeepsFaithful(v: View, s: Server, mixer: nat, records: seq<Rec>, after: Mixer)
    requires Faithful(v, s) && mixer in s.mixers && s.mixers[mixer].Valid() && after.Valid()
    requires Tell(records, s.mixers[mixer], after)
    ensures Faithful(ApplyRecords(v, mixer, records), s.(mixers := s.mixers[mixer := after]))
  {
    var r, s' := ApplyRecords(v, mixer, records), s.(mixers := s.mixers[mixer := after]);
    RecordsApplied(v, mixer, records);
    forall m, i | (m, i) in r
      ensures m in s'.mixers && s'.mixers[m].Valid() && 0 <= i < MAX_TMP_NODES && r[(m, i)] == s'.mixers[m].values[i]
    {
      if m == mixer && Rec(i, r[(m, i)]) !in records {
        assert (m, i) in v;
        assert after.values[i] == s.mixers[mixer].values[i];
      }
    }
  }

  lemma PollTells(m: Mixer, n: nat, dev: map<int, int>)
    requires m.Valid() && n <= MAX_TMP_NODES
    ensures Tell(PollRecords(m, n, dev), m, PollMixer(m, n, dev))
    ensures forall i :: PollMixer(m, n, dev).IsLeaf(i) <==> m.IsLeaf(i)
  {
    PollReportsNews(m, n, dev);
    PollLeavesNothing(m, n, dev);
    var after, records := PollMixer(m, n, dev), PollRecords(m, n, dev);
    forall i | 0 <= i < MAX_TMP_NODES && after.values[i] != m.values[i]
      ensures Rec(i, after.values[i]) in records
    {
      assert News(m, n, dev, i);
    }
    forall r | r in records
      ensures 0 <= r.node < MAX_TMP_NODES && r.value == after.values[r.node]
    {
      assert r == Rec(r.node, r.value);
      assert News(m, n, dev, r.node);
    }
  }

  /** A snapshot tells the value of every leaf. */
  lemma SnapshotTells(m: Mixer, n: nat, dev: map<int, int>)
    requires m.Valid() && n <= MAX_TMP_NODES
    ensures var refreshed := Refresh(m, n, dev);
      var records, after := Collect(refreshed, refreshed.nrext, false),
        ClearFlags(Collected(refreshed, refreshed.nrext, false));
      && Tell(records, m, after)
      && forall i :: after.IsLeaf(i) ==> Rec(i, after.values[i]) in records
  {
    RefreshMeaning(m, n, dev);
    var refreshed := Refresh(m, n, dev);
    CollectMeaning(refreshed, refreshed.nrext, false);
    var records := Collect(refreshed, refreshed.nrext, false);
    forall i | refreshed.IsLeaf(i)
      ensures Rec(i, refreshed.values[i]) in records
    {
      assert Reported(refreshed, i, false);
    }
    forall r | r in records
      ensures 0 <= r.node < MAX_TMP_NODES && r.value == refreshed.values[r.node]
    {
      var k :| 0 <= k < |records| && records[k] == r;
    }
  }

  // ---------------------------------------------------------------- the invariant

  ghost predicate Known(history: seq<Happening>, s: Server) {
    && Faithful(Fold(history), s)
    && forall m, i :: Covered(history, m, i) ==> Complete(Fold(history), s, m, i)
  }

  /** Sending `packets` may only add to what is covered what they are snapshots of. */
  lemma {:induction false} CoveredConcat(history: seq<Happening>, packets: seq<Packet>, mixer: nat, i: int)
    requires forall p :: p in packets ==> !(p.cmd == CMD_GET_ALL_VALUES && p.payload.Values?)
    ensures Covered(history + SentAll(packets), mixer, i) <==> Covered(history, mixer, i)
  {
    if packets == [] {
      assert history + SentAll(packets) == history;
    } else {
      var all := history + SentAll(packets);
      assert all[..|all| - 1] == history + SentAll(packets[..|packets| - 1]);
      CoveredConcat(history, packets[..|packets| - 1], mixer, i);
    }
  }

  lemma PollOneKeeps(history: seq<Happening>, s: Server, mixer: nat, d: Device)
    requires s.Valid() && d.Valid() && mixer < MAX_TMP_MIXER && Known(history, s)
    ensures var o := PollOne(s, mixer, d); Known(history + SentAll(o.sent), o.server)
  {
    var o := PollOne(s, mixer, d);
    FoldConcat(history, o.sent);
    forall m, i
      ensures Covered(history + SentAll(o.sent), m, i) <==> Covered(history, m, i)
    {
      CoveredConcat(history, o.sent, m, i);
    }
    if s.open[mixer] && mixer in s.mixers {
      var m := s.mixers[mixer];
      var records, after := PollRecords(m, d.Count(), d.values), PollMixer(m, d.Count(), d.values);
      PollTells(m, d.Count(), d.values);
      TellKeepsFaithful(Fold(history), s, mixer, records, after);
      RecordsApplied(Fold(history), mixer, records);
      assert Fold(history + SentAll(o.sent)) == ApplyRecords(Fold(history), mixer, records) by {
        if records != [] {
          assert o.sent == [ValueEvent(mixer, records)];
          assert o.sent[..0] == [];
        }
      }
    } else {
      assert history + SentAll(o.sent) == history;
    }
  }

  lemma SentAllConcat(history: seq<Happening>, a: seq<Packet>, b: seq<Packet>)
    ensures history + SentAll(a) + SentAll(b) == history + SentAll(a + b)
  {
    assert SentAll(a) + SentAll(b) == SentAll(a + b);
  }

  lemma PollNextKeeps(history: seq<Happening>, before: Outcome, mixer: nat, d: Device, o: Outcome)
    requires before.server.Valid() && d.Valid() && mixer < MAX_TMP_MIXER
    requires Known(history + SentAll(before.sent), before.server)
    requires var last := PollOne(before.server, mixer, d); o == Outcome(last.server, before.sent + last.sent)
    ensures Known(history + SentAll(o.sent), o.server)
  {
    PollOneKeeps(history + SentAll(before.sent), before.server, mixer, d);
    SentAllConcat(history, before.sent, PollOne(before.server, mixer, d).sent);
  }

  lemma {:induction false} PollMixersKeep(history: seq<Happening>, s: Server, n: nat, devices: seq<Device>)
    requires s.Valid() && n <= MAX_TMP_MIXER == |devices|
    requires (forall d :: d in devices ==> d.Valid()) && Known(history, s)
    ensures var o := PollMixers(s, n, devices); Known(history + SentAll(o.sent), o.server)
  {
    if n == 0 {
      assert history + SentAll([]) == history;
    } else {
      PollMixersKeep(history, s, n - 1, devices);
      PollNextKeeps(history, PollMixers(s, n - 1, devices), n - 1, devices[n - 1], PollMixers(s, n, devices));
    }
  }

  lemma PollKeeps(history: seq<Happening>, s: Server, devices: seq<Device>, nmixers: int)
    requires s.Valid() && nmixers <= MAX_TMP_MIXER == |devices|
    requires (forall d :: d in devices ==> d.Valid()) && Known(history, s)
    ensures var o := Poll(s, devices, nmixers); Known(history + SentAll(o.sent), o.server)
  {
    var polled := PollMixers(s, if s.numMixers < 0 then 0 else s.numMixers, devices);
    PollMixersKeep(history, s, if s.numMixers < 0 then 0 else s.numMixers, devices);
    if nmixers > s.numMixers {
      OtherPacketKeeps(history + SentAll(polled.sent), polled.server, NewMixerEvent(nmixers));
      assert history + SentAll(polled.sent) + [Sent(NewMixerEvent(nmixers))]
        == history + SentAll(polled.sent + [NewMixerEvent(nmixers)]);
    }
  }

  /** A packet without values changes nothing. */
  lemma OtherPacketKeeps(history: seq<Happening>, s: Server, p: Packet)
    requires Known(history, s) && !p.payload.Values?
    ensures Known(history + [Sent(p)], s)
  {
    assert (history + [Sent(p)])[..|history|] == history;
  }

  /** The part of a server the view depends on. */
  lemma SameMixersKeep(history: seq<Happening>, s: Server, s': Server)
    requires Known(history, s) && s'.mixers == s.mixers
    ensures Known(history, s')
  {
    forall m, i | Covered(history, m, i)
      ensures Complete(Fold(history), s', m, i)
    {
      assert Complete(Fold(history), s, m, i);
    }
  }

  /** `s'` differs from `s` in the node records of `mixer` only; no value moved. */
  ghost predicate OnlyNodes(s: Server, s': Server, mixer: nat) {
    && (forall m :: m in s.mixers ==> m in s'.mixers && s'.mixers[m].values == s.mixers[m].values)
    && (forall m :: m in s.mixers && m != mixer ==> s'.mixers[m] == s.mixers[m])
    && (forall m :: m in s'.mixers && m != mixer ==> m in s.mixers)
  }

  lemma {:induction false} SendNodesOnlyNodes(s: Server, mixer: nat, i: nat, last: int, batch: seq<NodeInfo>, d: Device)
    requires s.Valid() && d.Valid() && mixer < MAX_TMP_MIXER
    ensures var o := SendNodes(s, mixer, i, last, batch, d);
      OnlyNodes(s, o.server, mixer) && forall p :: p in o.sent ==> !p.payload.Values?
    decreases last + 1 - i
  {
    if i <= last && i in d.nodeInfo {
      var s', batch' := CacheNode(s, mixer, d.nodeInfo[i]), batch + [d.nodeInfo[i]];
      SendNodesOnlyNodes(s', mixer, i + 1, last, if |batch'| >= MAX_NODES then [] else batch', d);
    }
  }

  lemma {:induction false} PlainPackets(v: View, packets: seq<Packet>)
    requires forall p :: p in packets ==> !p.payload.Values?
    ensures ApplyPackets(v, packets) == v
  {
    if packets != [] {
      PlainPackets(v, packets[..|packets| - 1]);
    }
  }

  lemma PlainPacketsKeep(history: seq<Happening>, s: Server, packets: seq<Packet>)
    requires Known(history, s) && forall p :: p in packets ==> !p.payload.Values?
    ensures Known(history + SentAll(packets), s)
  {
    FoldConcat(history, packets);
    PlainPackets(Fold(history), packets);
    forall m, i
      ensures Covered(history + SentAll(packets), m, i) <==> Covered(history, m, i)
    {
      CoveredConcat(history, packets, m, i);
    }
  }

  lemma NodesCachedKeep(history: seq<Happening>, s: Server, s': Server, mixer: nat)
    requires Known(history, s) && OnlyNodes(s, s', mixer) && s.Valid() && s'.Valid()
    ensures Known(history + [NodesCached(mixer, GainedLeaves(s, s', mixer))], s')
  {
    var after := history + [NodesCached(mixer, GainedLeaves(s, s', mixer))];
    assert after[..|after| - 1] == history;
    forall m, i | Covered(after, m, i)
      ensures Complete(Fold(after), s', m, i)
    {
      assert Complete(Fold(history), s, m, i);
    }
  }

  lemma ServeNodesKeeps(history: seq<Happening>, s: Server, r: Request, d: Device)
    requires s.Valid() && d.Valid() && r.InRange() && r.GetNodeInfo? && Known(history, s)
    ensures var o := ServeNodeInfo(s, r.mixer, r.first, r.last, d);
      Known(history + [NodesCached(r.mixer, GainedLeaves(s, o.server, r.mixer))] + SentAll(o.sent), o.server)
  {
    var o := ServeNodeInfo(s, r.mixer, r.first, r.last, d);
    if r.last > r.first {
      SendNodesOnlyNodes(s, r.mixer, r.first, r.last, [], d);
    }
    NodesCachedKeep(history, s, o.server, r.mixer);
    PlainPacketsKeep(history + [NodesCached(r.mixer, GainedLeaves(s, o.server, r.mixer))], o.server, o.sent);
  }

  lemma StoredKeeps(history: seq<Happening>, s: Server, mixer: nat, node: nat, value: int)
    requires s.Valid() && mixer in s.mixers && mixer < MAX_TMP_MIXER && node < MAX_TMP_NODES && Known(history, s)
    ensures Known(history + [Stored(mixer, node, value)], CacheValue(s, mixer, node, value))
  {
    var after, s' := history + [Stored(mixer, node, value)], CacheValue(s, mixer, node, value);
    assert after[..|after| - 1] == history;
    forall m, i | Covered(after, m, i)
      ensures Complete(Fold(after), s', m, i)
    {
      assert Complete(Fold(history), s, m, i);
    }
  }

  /** Serving GET_ALL_VALUES makes the view complete for that mixer. */
  lemma SnapshotKeeps(history: seq<Happening>, s: Server, mixer: nat, d: Device)
    requires s.Valid() && d.Valid() && Known(history, s)
    ensures var o := ServeAllValues(s, mixer, d);
      (forall i :: Covered(history + SentAll(o.sent), mixer, i)) && Known(history + SentAll(o.sent), o.server)
  {
    var o := ServeAllValues(s, mixer, d);
    var after := history + SentAll(o.sent);
    assert after[..|after| - 1] == history && after[|after| - 1] == Sent(o.sent[0]);
    if mixer in s.mixers {
      SnapshotTells(s.mixers[mixer], d.Count(), d.values);
      TellKeepsFaithful(Fold(history), s, mixer, o.sent[0].payload.records, o.server.mixers[mixer]);
      RecordsApplied(Fold(history), mixer, o.sent[0].payload.records);
    }
    forall m, i | Covered(after, m, i)
      ensures Complete(Fold(after), o.server, m, i)
    {
      if m != mixer {
        assert Covered(history, m, i) && Complete(Fold(history), s, m, i);
      }
    }
  }

  lemma HappeningsSplit(history: seq<Happening>, s: Server, r: Request, d: Device, sent: seq<Packet>)
    requires s.Valid() && d.Valid() && r.InRange()
    ensures history + ServeHappenings(s, r, d, sent) == history + ServeHappenings(s, r, d, []) + SentAll(sent)
  {
  }

  lemma ServePlainKeeps(history: seq<Happening>, s: Server, r: Request, d: Device)
    requires s.Valid() && d.Valid() && r.InRange() && Known(history, s)
    requires !r.GetNodeInfo? && !r.SetValueAt? && !r.GetAllValues? && !r.GetValue?
    ensures var o := Serve(s, r, d); Known(history + ServeHappenings(s, r, d, o.sent), o.server)
  {
    var o := Serve(s, r, d);
    SameMixersKeep(history, s, o.server);
    PlainPacketsKeep(history, o.server, o.sent);
    assert ServeHappenings(s, r, d, o.sent) == SentAll(o.sent);
  }

  lemma ServeKeeps(history: seq<Happening>, s: Server, r: Request, d: Device)
    requires s.Valid() && d.Valid() && r.InRange() && !r.GetValue? && Known(history, s)
    ensures var o := Serve(s, r, d); Known(history + ServeHappenings(s, r, d, o.sent), o.server)
  {
    if r.GetNodeInfo? {
      ServeNodesKeeps(history, s, r, d);
      assert ServeHappenings(s, r, d, []) == [NodesCached(r.mixer, GainedLeaves(s, Serve(s, r, d).server, r.mixer))];
      HappeningsSplit(history, s, r, d, ServeNodeInfo(s, r.mixer, r.first, r.last, d).sent);
    } else if r.SetValueAt? {
      if r.mixer in s.mixers && d.stored.Some? {
        StoredKeeps(history, s, r.mixer, r.node, d.stored.value);
        assert ServeHappenings(s, r, d, []) == [Stored(r.mixer, r.node, d.stored.value)];
      } else {
        assert history + ServeHappenings(s, r, d, []) == history;
      }
    } else if r.GetAllValues? {
      SnapshotKeeps(history, s, r.mixer, d);
      assert ServeHappenings(s, r, d, ServeAllValues(s, r.mixer, d).sent)
        == SentAll(ServeAllValues(s, r.mixer, d).sent);
    } else {
      ServePlainKeeps(history, s, r, d);
    }
  }

  /** GET_VALUE, which the stock client never sends, moves the cached value without an event: the view
      stays faithful if and only if the node is not in it, the read fails or delivers the cached value. */
  lemma PeekHidesChange(history: seq<Happening>, s: Server, mixer: nat, node: nat, d: Device)
    requires s.Valid() && d.Valid() && GetValue(mixer, node).InRange() && Faithful(Fold(history), s)
    ensures Faithful(Fold(history), Serve(s, GetValue(mixer, node), d).server) <==>
      (mixer, node) !in Fold(history) || node !in d.values || d.values[node] == s.mixers[mixer].values[node]
  {
    var s' := Serve(s, GetValue(mixer, node), d).server;
    if (mixer, node) in Fold(history) && node in d.values {
      assert s'.mixers[mixer].values[node] == d.values[node];
    }
  }

  // ---------------------------------------------------------------- runs

  ghost predicate Followed(s: System) {
    && Known(s.history, s.server)
    && (forall r :: r in s.toServer ==> !r.GetValue?)
    && PacketsOf(s.history) == s.received + s.toClient
  }

  lemma HappeningsPackets(s: Server, r: Request, d: Device, sent: seq<Packet>)
    requires s.Valid() && d.Valid() && r.InRange()
    ensures PacketsOf(ServeHappenings(s, r, d, sent)) == sent
  {
    var notes := (if r.GetNodeInfo? then [NodesCached(r.mixer, GainedLeaves(s, Serve(s, r, d).server, r.mixer))]
                  else [])
      + (if r.SetValueAt? && r.mixer in s.mixers && d.stored.Some? then [Stored(r.mixer, r.node, d.stored.value)]
         else []);
    assert PacketsOf(notes) == [];
    PacketsOfConcat(notes, SentAll(sent));
    PacketsOfSent(sent);
  }

  lemma ServerFollows(s: System, s': System, more: seq<Happening>, sent: seq<Packet>)
    requires Followed(s) && Known(s.history + more, s'.server) && PacketsOf(more) == sent
    requires s'.history == s.history + more && s'.toClient == s.toClient + sent && s'.received == s.received
    requires forall r :: r in s'.toServer ==> r in s.toServer
    ensures Followed(s')
  {
    PacketsOfConcat(s.history, more);
    assert s.received + s.toClient + sent == s.received + (s.toClient + sent);
  }

  lemma ServeFollows(s: System, d: Device)
    requires s.Valid() && Followed(s) && s.toServer != [] && d.Valid()
    ensures Followed(ServerServe(s, d))
  {
    var r := s.toServer[0];
    assert r in s.toServer;
    var sent := Serve(s.server, r, d).sent;
    ServeKeeps(s.history, s.server, r, d);
    HappeningsPackets(s.server, r, d, sent);
    ServerFollows(s, ServerServe(s, d), ServeHappenings(s.server, r, d, sent), sent);
  }

  lemma PollFollows(s: System, devices: seq<Device>, nmixers: int)
    requires s.Valid() && Followed(s) && nmixers <= MAX_TMP_MIXER == |devices| && forall d :: d in devices ==> d.Valid()
    ensures Followed(ServerPoll(s, devices, nmixers))
  {
    var sent := Poll(s.server, devices, nmixers).sent;
    PollKeeps(s.history, s.server, devices, nmixers);
    PacketsOfSent(sent);
    ServerFollows(s, ServerPoll(s, devices, nmixers), SentAll(sent), sent);
  }

  lemma ClientFollows(s: System, s': System, asks: seq<Request>)
    requires Followed(s) && (forall r :: r in asks ==> !r.GetValue?)
    requires s'.history == s.history && s'.server == s.server && s'.toServer == s.toServer + asks
    requires s'.received + s'.toClient == s.received + s.toClient
    ensures Followed(s')
  {
  }

  lemma NextFollows(s: System, step: Step)
    requires s.Valid() && Followed(s)
    ensures Followed(Next(s, step))
  {
    if Enabled(s, step) {
      match step
      case ClientCalls(call) => ClientFollows(s, ClientCall(s, call), Start(s.client, call).asks);
      case ClientReads =>
        assert s.received + [s.toClient[0]] + s.toClient[1..] == s.received + s.toClient;
        ClientFollows(s, ClientRead(s),
          if s.toClient[0].unsolicited && !s.client.phase.Welcoming? then [] else Hear(s.client, s.toClient[0]).asks);
      case ClientPolls =>
        assert s.received + [s.toClient[0]] + s.toClient[1..] == s.received + s.toClient;
        ClientFollows(s, ClientPoll(s), []);
      case ServerServes(d) => ServeFollows(s, d);
      case ServerPolls(devices, nmixers) => PollFollows(s, devices, nmixers);
    }
  }

  lemma {:induction false} ExecFollows(s: System, steps: seq<Step>)
    requires s.Valid() && Followed(s)
    ensures Followed(Exec(s, steps))
  {
    if steps != [] {
      ExecFollows(s, steps[..|steps| - 1]);
      NextFollows(Exec(s, steps[..|steps| - 1]), steps[|steps| - 1]);
    }
  }

  lemma InitFollowed(server: Server)
    requires server.Valid()
    ensures Followed(Init0(server))
  {
    var s := Init0(server);
    assert s.history[..0] == [] && Fold(s.history) == map[];
    assert PacketsOf(s.history) == [WELCOME];
  }

  /** In every run from any state of the daemon, fold in the daemon's order the snapshots, the value events
      and the values it cached for SET_VALUE: every value in the fold, of any mixer, is the cached one; and of
      the leaves none is missing that was one when a snapshot was taken, whatever has been cached since. */
  lemma FoldIsCache(server: Server, steps: seq<Step>)
    requires server.Valid()
    ensures var s := Exec(Init0(server), steps);
      && Faithful(Fold(s.history), s.server)
      && forall mixer, i :: Covered(s.history, mixer, i) && Leaf(s.server, mixer, i) ==>
           (mixer, i) in Fold(s.history) && Fold(s.history)[(mixer, i)] == s.server.mixers[mixer].values[i]
  {
    InitFollowed(server);
    ExecFollows(Init0(server), steps);
    var s := Exec(Init0(server), steps);
    forall mixer, i | Covered(s.history, mixer, i) && Leaf(s.server, mixer, i)
      ensures (mixer, i) in Fold(s.history) && Fold(s.history)[(mixer, i)] == s.server.mixers[mixer].values[i]
    {
      assert Complete(Fold(s.history), s.server, mixer, i);
    }
  }

  /** A client that only listens knows the cache from its own packets whenever its channel is drained. */
  lemma ListenerKnowsCache(server: Server, steps: seq<Step>)
    requires server.Valid()
    requires var s := Exec(Init0(server), steps); NothingStored(s.history) && s.toClient == []
    ensures var s := Exec(Init0(server), steps); var view := ApplyPackets(map[], s.received);
      && Faithful(view, s.server)
      && forall mixer, i :: Covered(s.history, mixer, i) && Leaf(s.server, mixer, i) ==>
           (mixer, i) in view && view[(mixer, i)] == s.server.mixers[mixer].values[i]
  {
    FoldIsCache(server, steps);
    InitFollowed(server);
    ExecFollows(Init0(server), steps);
    var s := Exec(Init0(server), steps);
    FoldOfPackets(s.history);
    assert PacketsOf(s.history) == s.received;
  }
}
