/** Replies find their requests: the invariant of the mixer protocol, proved step by step, and what
    it says about every run. */
module MixerCorrelation {
  import opened Basics
  import opened MixerCache
  import opened MixerDaemon
  import opened MixerProtocol

  function Solicited(q: seq<Packet>): (r: seq<Packet>)
    ensures forall p :: p in r ==> p in q && !p.unsolicited
  {
    if q == [] then [] else (if q[0].unsolicited then [] else [q[0]]) + Solicited(q[1..])
  }

  lemma {:induction false} SolicitedConcat(a: seq<Packet>, b: seq<Packet>)
    ensures Solicited(a + b) == Solicited(a) + Solicited(b)
  {
    if a == [] {
      assert a + b == b;
    } else {
      assert (a + b)[1..] == a[1..] + b;
      SolicitedConcat(a[1..], b);
    }
  }

  lemma {:induction false} AllUnsolicited(q: seq<Packet>)
    requires forall p :: p in q ==> p.unsolicited
    ensures Solicited(q) == []
  {
    if q != [] {
      AllUnsolicited(q[1..]);
    }
  }

  lemma {:induction false} AllSolicited(q: seq<Packet>)
    requires forall p :: p in q ==> !p.unsolicited
    ensures Solicited(q) == q
  {
    if q != [] {
      AllSolicited(q[1..]);
    }
  }

  lemma {:induction false} NoneSolicited(q: seq<Packet>)
    requires Solicited(q) == []
    ensures forall p :: p in q ==> p.unsolicited
  {
    if q != [] {
      NoneSolicited(q[1..]);
    }
  }

  /** The packets answer a wait for `left` node records: full batches, then the rest, or an error
      packet in the place of a batch and nothing after it. */
  ghost predicate Batches(q: seq<Packet>, left: nat)
    decreases |q|
  {
    if left == 0 then q == []
    else
      && q != []
      && ((|q| == 1 && q[0].cmd < 0)
          || (q[0].cmd >= 0 && q[0].payload.Nodes? && |q[0].payload.nodes| == Min(left, MAX_NODES)
              && Batches(q[1..], left - Min(left, MAX_NODES))))
  }

  /** The daemon's batches are the ones the client waits for, whatever the device answers. */
  lemma {:induction false} SendNodesBatches(s: Server, mixer: nat, i: nat, last: int, batch: seq<NodeInfo>, d: Device)
    requires s.Valid() && d.Valid() && mixer < MAX_TMP_MIXER
    requires |batch| < MAX_NODES && i <= last + 1
    ensures var sent := SendNodes(s, mixer, i, last, batch, d).sent;
      Batches(sent, |batch| + last + 1 - i) && forall p :: p in sent ==> !p.unsolicited
    decreases last + 1 - i
  {
    if i <= last && i in d.nodeInfo {
      var s' := CacheNode(s, mixer, d.nodeInfo[i]);
      var batch' := batch + [d.nodeInfo[i]];
      if |batch'| >= MAX_NODES {
        SendNodesBatches(s', mixer, i + 1, last, [], d);
        var rest := SendNodes(s', mixer, i + 1, last, [], d).sent;
        assert ([NodeBatch(batch', i)] + rest)[1..] == rest;
      } else {
        SendNodesBatches(s', mixer, i + 1, last, batch', d);
      }
    }
  }

  /** The packets are what a request may be answered with: nothing for a silent request, batches for
      an open call's node request, one packet for everything else. */
  ghost predicate Answers(r: Request, sent: seq<Packet>) {
    && Solicited(sent) == sent
    && (!r.Answered() ==> sent == [])
    && (r.Answered() && !(r.GetNodeInfo? && r.first < r.last) ==> |sent| == 1)
    && (r.GetNodeInfo? && r.first < r.last ==> Batches(sent, r.last + 1 - r.first))
    && (r.GetNodeInfo? && r.first == 0 == r.last ==> Batches(sent, 1))
  }

  lemma NodeInfoAnswers(s: Server, r: Request, d: Device)
    requires s.Valid() && d.Valid() && r.InRange() && r.GetNodeInfo?
    ensures Answers(r, ServeNodeInfo(s, r.mixer, r.first, r.last, d).sent)
  {
    var sent := ServeNodeInfo(s, r.mixer, r.first, r.last, d).sent;
    if r.first < r.last {
      SendNodesBatches(s, r.mixer, r.first, r.last, [], d);
      assert Batches(sent, r.last + 1 - r.first);
    } else {
      assert |sent| == 1 && (r.first == 0 == r.last ==> Batches(sent, 1));
    }
    AllSolicited(sent);
  }

  lemma ServeAnswers(s: Server, r: Request, d: Device)
    requires s.Valid() && d.Valid() && r.InRange()
    ensures Answers(r, Serve(s, r, d).sent)
  {
    if r.GetNodeInfo? {
      NodeInfoAnswers(s, r, d);
    } else if |Serve(s, r, d).sent| > 0 {
      assert Serve(s, r, d).sent == [Serve(s, r, d).sent[0]];
    }
  }

  lemma {:induction false} PollSendsEvents(s: Server, n: nat, devices: seq<Device>)
    requires s.Valid() && n <= MAX_TMP_MIXER == |devices| && forall d :: d in devices ==> d.Valid()
    ensures forall p :: p in PollMixers(s, n, devices).sent ==> p.unsolicited && GoodEvent(p)
  {
    if n > 0 {
      PollSendsEvents(s, n - 1, devices);
    }
  }

  // ---------------------------------------------------------------- the invariant

  ghost predicate Tells(q: seq<Request>) {
    forall r :: r in q ==> !r.Answered()
  }

  /** `asks` are the last requests in the queue, behind silent ones. */
  ghost predicate Behind(q: seq<Request>, asks: seq<Request>) {
    |asks| <= |q| && q[|q| - |asks|..] == asks && Tells(q[..|q| - |asks|])
  }

  ghost predicate Expected(phase: Phase, solicited: seq<Packet>) {
    if phase.Loading? then phase.left > 0 && Batches(solicited, phase.left) else |solicited| == 1
  }

  /** The pending request has not been served, or its answers, and no others, are on their way. */
  ghost predicate Awaiting(s: System)
    requires s.client.phase.Blocked()
  {
    var phase, solicited := s.client.phase, Solicited(s.toClient);
    || (Behind(s.toServer, [phase.Pending()]) && phase.Pending().Answered() && solicited == [] && s.said == s.heard
        && (phase.Loading? ==> 0 < phase.left == phase.nrext) && !phase.Welcoming?)
    || (s.toServer == [] && Expected(phase, solicited) && s.said == s.heard + Pairs(phase.Pending(), solicited)
        && (phase.Welcoming? ==> s.toClient[0] == WELCOME))
  }

  ghost predicate Events(q: seq<Packet>) {
    forall p :: p in q && p.unsolicited ==> GoodEvent(p)
  }

  ghost predicate Aligned(s: System) {
    && s.stale == Never && Events(s.toClient) && !s.client.phase.Dead?
    && if s.client.phase.Blocked() then Awaiting(s)
       else Tells(s.toServer) && Solicited(s.toClient) == [] && s.said == s.heard
  }

  /** An open call was told "0 nodes": two answers come for its one wait. */
  ghost predicate OneTooMany(s: System) {
    && s.stale == Queued && Events(s.toClient) && s.client.phase.Snapshotting?
    && var m, solicited := s.client.phase.mixer, Solicited(s.toClient);
      || (Behind(s.toServer, [GetNodeInfo(m, 0, -1), GetAllValues(m)]) && solicited == [] && s.said == s.heard)
      || (s.toServer == [GetAllValues(m)] && |solicited| == 1
          && s.said == s.heard + [(GetNodeInfo(m, 0, -1), solicited[0])])
      || (s.toServer == [] && |solicited| == 2
          && s.said == s.heard + [(GetNodeInfo(m, 0, -1), solicited[0]), (GetAllValues(m), solicited[1])])
  }

  ghost predicate Crossed(s: System) {
    s.stale == Misheard && exists k :: 0 <= k < |s.heard| && k < |s.said| && s.heard[k] != s.said[k]
  }

  ghost predicate Inv(s: System) {
    Aligned(s) || OneTooMany(s) || Crossed(s)
  }

  /** What a call writes: a silent request and the client stays idle, or one request to wait for. */
  ghost predicate Calling(c: Client, r: Reaction) {
    && |r.asks| <= 1
    && if r.client.phase.Blocked() then
         && r.asks == [r.client.phase.Pending()] && r.client.phase.Pending().Answered()
         && !r.client.phase.Loading? && !r.client.phase.Welcoming?
       else r.client == c && Tells(r.asks)
  }

  lemma StartIsCalling(c: Client, call: Call)
    requires c.Valid() && c.phase.Idle? && call.Legal()
    ensures Calling(c, Start(c, call))
  {
  }

  lemma CalledKeeps(s: System, r: Reaction, s': System)
    requires Aligned(s) && s.client.phase.Idle? && Calling(s.client, r)
    requires s' == s.(client := r.client, toServer := s.toServer + r.asks)
    ensures Aligned(s')
  {
    if r.client.phase.Blocked() {
      assert s'.toServer[|s'.toServer| - 1..] == r.asks;
      assert s'.toServer[..|s'.toServer| - 1] == s.toServer;
    }
  }

  lemma CrossedStays(s: System, s': System)
    requires Crossed(s) && s'.stale == Misheard && s.said <= s'.said && s.heard <= s'.heard
    ensures Crossed(s')
  {
    var k :| 0 <= k < |s.heard| && k < |s.said| && s.heard[k] != s.said[k];
    assert s'.heard[k] != s'.said[k];
  }

  lemma CallKeeps(s: System, call: Call)
    requires s.Valid() && Inv(s) && s.client.phase.Idle? && call.Legal()
    ensures Inv(ClientCall(s, call))
  {
    if Aligned(s) {
      StartIsCalling(s.client, call);
      CalledKeeps(s, Start(s.client, call), ClientCall(s, call));
    } else {
      CrossedStays(s, ClientCall(s, call));
    }
  }

  lemma SplitFirst(q: seq<Packet>)
    requires q != []
    ensures Solicited(q) == (if q[0].unsolicited then [] else [q[0]]) + Solicited(q[1..])
  {
  }

  /** An event met by a blocked client leaves the wait as it is. */
  lemma ReadEventKeeps(s: System)
    requires s.Valid() && Inv(s) && s.client.phase.Blocked() && s.toClient != []
    requires s.toClient[0].unsolicited && !s.client.phase.Welcoming?
    ensures Inv(ClientRead(s))
  {
    SplitFirst(s.toClient);
    var s' := ClientRead(s);
    assert s.toClient[0] in s.toClient;
    if !Crossed(s) {
      assert s'.client == s.client && Solicited(s'.toClient) == Solicited(s.toClient);
    } else {
      CrossedStays(s, s');
    }
  }

  lemma ReadReplyOneTooMany(s: System)
    requires s.Valid() && OneTooMany(s) && s.toClient != [] && !s.toClient[0].unsolicited
    ensures Crossed(ClientRead(s))
  {
    SplitFirst(s.toClient);
    var s' := ClientRead(s);
    var k := |s.heard|;
    assert s'.heard[k] == (GetAllValues(s.client.phase.mixer), s.toClient[0]);
    assert s'.said[k].0 == GetNodeInfo(s.client.phase.mixer, 0, -1);
  }

  /** With a reply on its way, or before the welcome, the pending request has been served. */
  lemma ReplyOnItsWay(s: System)
    requires Aligned(s) && s.client.phase.Blocked() && (Solicited(s.toClient) != [] || s.client.phase.Welcoming?)
    ensures var phase, solicited := s.client.phase, Solicited(s.toClient);
      && s.toServer == [] && Expected(phase, solicited) && s.said == s.heard + Pairs(phase.Pending(), solicited)
      && (phase.Welcoming? && s.toClient != [] ==> s.toClient[0] == WELCOME)
  {
  }

  lemma PairsFirst(heard: seq<(Request, Packet)>, r: Request, p: Packet, rest: seq<Packet>)
    ensures heard + Pairs(r, [p] + rest) == heard + [(r, p)] + Pairs(r, rest)
  {
    assert Pairs(r, [p] + rest) == [(r, p)] + Pairs(r, rest);
    assert heard + ([(r, p)] + Pairs(r, rest)) == heard + [(r, p)] + Pairs(r, rest);
  }

  /** The reply in front is taken off both lists of pairs. */
  lemma TakeReply(s: System)
    requires Aligned(s) && s.client.phase.Blocked() && s.toClient != []
    requires !s.toClient[0].unsolicited || s.client.phase.Welcoming?
    ensures var phase, p, rest := s.client.phase, s.toClient[0], Solicited(s.toClient[1..]);
      && !p.unsolicited && s.toServer == [] && Expected(phase, [p] + rest)
      && s.said == s.heard + [(phase.Pending(), p)] + Pairs(phase.Pending(), rest)
  {
    SplitFirst(s.toClient);
    ReplyOnItsWay(s);
    PairsFirst(s.heard, s.client.phase.Pending(), s.toClient[0], Solicited(s.toClient[1..]));
  }

  lemma BatchesFirst(p: Packet, rest: seq<Packet>, left: nat)
    requires left > 0 && Batches([p] + rest, left)
    ensures p.cmd < 0 ==> rest == []
    ensures p.cmd >= 0 ==> p.payload.Nodes? && |p.payload.nodes| == Min(left, MAX_NODES)
    ensures p.cmd >= 0 ==> if left > MAX_NODES then Batches(rest, left - MAX_NODES) else rest == []
  {
    assert ([p] + rest)[1..] == rest;
  }

  /** The last packet of an answer: the client is done or asks exactly what it waits for next, except
      that the count 0 makes it ask twice. */
  lemma HearLast(c: Client, p: Packet)
    requires c.Valid() && c.phase.Blocked()
    requires !(c.phase.Loading? && p.cmd >= 0 && c.phase.left > MAX_NODES)
    ensures var r := Hear(c, p);
      if c.phase.Counting? && p.cmd == 0 then
        && r.client.phase == Snapshotting(c.phase.mixer)
        && r.asks == [GetNodeInfo(c.phase.mixer, 0, -1), GetAllValues(c.phase.mixer)]
      else if r.client.phase.Blocked() then
        && r.asks == [r.client.phase.Pending()] && r.client.phase.Pending().Answered() && !r.client.phase.Welcoming?
        && (r.client.phase.Loading? ==> 0 < r.client.phase.left == r.client.phase.nrext)
      else r.asks == [] && !r.client.phase.Dead?
  {
  }

  lemma ReplyCompletes(s: System)
    requires s.Valid() && Aligned(s) && s.client.phase.Blocked() && s.toClient != []
    requires !s.toClient[0].unsolicited || s.client.phase.Welcoming?
    requires Solicited(s.toClient[1..]) == []
    requires !(s.client.phase.Loading? && s.toClient[0].cmd >= 0 && s.client.phase.left > MAX_NODES)
    ensures Inv(ClientRead(s))
  {
    TakeReply(s);
    HearLast(s.client, s.toClient[0]);
    Asked(s, Hear(s.client, s.toClient[0]), ClientRead(s));
  }

  /** The completed state, seen through the client's reaction alone. */
  lemma Asked(s: System, r: Reaction, s': System)
    requires s.stale == Never && Events(s.toClient) && s.toClient != []
    requires s'.client == r.client && s'.toServer == r.asks
    requires s'.toClient == s.toClient[1..] && Solicited(s'.toClient) == []
    requires s'.said == s'.heard
    requires if s'.stale == Queued then
        && r.client.phase.Snapshotting?
        && r.asks == [GetNodeInfo(r.client.phase.mixer, 0, -1), GetAllValues(r.client.phase.mixer)]
      else s'.stale == Never && if r.client.phase.Blocked() then
        && r.asks == [r.client.phase.Pending()] && r.client.phase.Pending().Answered() && !r.client.phase.Welcoming?
        && (r.client.phase.Loading? ==> 0 < r.client.phase.left == r.client.phase.nrext)
      else r.asks == [] && !r.client.phase.Dead?
    ensures Inv(s')
  {
    assert r.asks[|r.asks| - |r.asks|..] == r.asks;
  }

  lemma TakeBatch(s: System) returns (p: Packet, rest: seq<Packet>)
    requires s.Valid() && Aligned(s) && s.client.phase.Loading? && s.toClient != [] && !s.toClient[0].unsolicited
    requires s.toClient[0].cmd >= 0 && s.client.phase.left > MAX_NODES
    ensures p == s.toClient[0] && rest == Solicited(s.toClient[1..]) && s.toServer == []
    ensures p.payload.Nodes? && |p.payload.nodes| == MAX_NODES && Batches(rest, s.client.phase.left - MAX_NODES)
    ensures s.said == s.heard + [(s.client.phase.Pending(), p)] + Pairs(s.client.phase.Pending(), rest)
    ensures s.stale == Never && Events(s.toClient)
  {
    TakeReply(s);
    p, rest := s.toClient[0], Solicited(s.toClient[1..]);
    BatchesFirst(p, rest, s.client.phase.left);
  }

  lemma ReadMore(s: System)
    requires s.Valid() && s.client.phase.Loading? && s.stale == Never && s.toClient != [] && !s.toClient[0].unsolicited
    requires var p := s.toClient[0];
      p.cmd >= 0 && s.client.phase.left > MAX_NODES && p.payload.Nodes? && |p.payload.nodes| == MAX_NODES
    ensures var s' := ClientRead(s);
      && s'.client.phase == s.client.phase.(left := s.client.phase.left - MAX_NODES) && s'.stale == Never
      && s'.toClient == s.toClient[1..] && s'.toServer == s.toServer && s'.said == s.said
      && s'.heard == s.heard + [(s.client.phase.Pending(), s.toClient[0])]
  {
  }

  lemma ReplyContinues(s: System)
    requires s.Valid() && Aligned(s) && s.client.phase.Loading? && s.toClient != [] && !s.toClient[0].unsolicited
    requires s.toClient[0].cmd >= 0 && s.client.phase.left > MAX_NODES
    ensures Aligned(ClientRead(s))
  {
    var p, rest := TakeBatch(s);
    ReadMore(s);
    Continued(s, ClientRead(s), p, rest);
  }

  lemma Continued(s: System, s': System, p: Packet, rest: seq<Packet>)
    requires s.client.phase.Loading? && s.client.phase.left > MAX_NODES && s.stale == Never && Events(s.toClient)
    requires s'.client.phase == s.client.phase.(left := s.client.phase.left - MAX_NODES) && s'.stale == Never
    requires s.toClient != [] && s'.toClient == s.toClient[1..] && s'.toServer == [] && Solicited(s'.toClient) == rest
    requires Batches(rest, s'.client.phase.left)
    requires s.said == s.heard + [(s.client.phase.Pending(), p)] + Pairs(s.client.phase.Pending(), rest)
    requires s'.said == s.said && s'.heard == s.heard + [(s.client.phase.Pending(), p)]
    ensures Aligned(s')
  {
    assert rest != [];
  }

  lemma ReadKeeps(s: System)
    requires s.Valid() && Inv(s) && s.client.phase.Blocked() && s.toClient != []
    ensures Inv(ClientRead(s))
  {
    if s.toClient[0].unsolicited && !s.client.phase.Welcoming? {
      ReadEventKeeps(s);
    } else if Crossed(s) {
      CrossedStays(s, ClientRead(s));
    } else if OneTooMany(s) {
      ReadReplyOneTooMany(s);
    } else {
      TakeReply(s);
      var phase, p, rest := s.client.phase, s.toClient[0], Solicited(s.toClient[1..]);
      if phase.Loading? {
        BatchesFirst(p, rest, phase.left);
      }
      if phase.Loading? && p.cmd >= 0 && phase.left > MAX_NODES {
        ReplyContinues(s);
      } else {
        ReplyCompletes(s);
      }
    }
  }

  lemma PollCallbackKeeps(s: System)
    requires s.Valid() && Inv(s) && s.client.phase.Idle? && s.toClient != []
    ensures Inv(ClientPoll(s))
  {
    SplitFirst(s.toClient);
    assert s.toClient[0] in s.toClient;
    if Crossed(s) {
      CrossedStays(s, ClientPoll(s));
    }
  }

  /** `s'` is `s` after its first request has been answered with `sent`. */
  ghost predicate Answering(s: System, sent: seq<Packet>, s': System) {
    && s.client.Valid() && s.toServer != [] && Answers(s.toServer[0], sent)
    && s'.client == s.client && s'.stale == s.stale && s'.heard == s.heard
    && s'.toServer == s.toServer[1..] && s'.toClient == s.toClient + sent
    && s'.said == s.said + Pairs(s.toServer[0], sent)
  }

  lemma ServeIsAnswering(s: System, d: Device)
    requires s.Valid() && s.toServer != [] && d.Valid()
    ensures s.toServer[0].InRange() && Answering(s, Serve(s.server, s.toServer[0], d).sent, ServerServe(s, d))
  {
    assert s.toServer[0] in s.toServer;
    ServeAnswers(s.server, s.toServer[0], d);
  }

  lemma AnswerGrows(s: System, sent: seq<Packet>, s': System)
    requires Answering(s, sent, s') && Events(s.toClient)
    ensures Events(s'.toClient) && Solicited(s'.toClient) == Solicited(s.toClient) + sent
    ensures forall p :: p in sent ==> !p.unsolicited
  {
    SolicitedConcat(s.toClient, sent);
    assert forall p :: p in sent ==> p in Solicited(sent);
  }

  lemma BehindTail(q: seq<Request>, asks: seq<Request>)
    requires Behind(q, asks) && |q| > |asks|
    ensures !q[0].Answered() && Behind(q[1..], asks)
  {
    assert q[0] in q[..|q| - |asks|];
    assert q[1..][..|q| - 1 - |asks|] == q[1..|q| - |asks|];
    assert q[1..][|q| - 1 - |asks|..] == q[|q| - |asks|..];
  }

  /** A silent request is obeyed without a packet. */
  lemma SilentAnswer(s: System, sent: seq<Packet>, s': System)
    requires Answering(s, sent, s') && !s.toServer[0].Answered()
    ensures s'.toClient == s.toClient && s'.said == s.said
  {
  }

  lemma AnswersAreExpected(phase: Phase, sent: seq<Packet>)
    requires phase.Blocked() && phase.Pending().Answered() && Answers(phase.Pending(), sent)
    requires phase.Loading? ==> 0 < phase.left == phase.nrext
    requires phase.Waiting? && phase.request.GetNodeInfo? ==> phase.request.last == 0
    ensures Expected(phase, sent) && sent != []
  {
  }

  lemma AnswerToPending(s: System, sent: seq<Packet>, s': System)
    requires Answering(s, sent, s') && Aligned(s) && s.client.phase.Blocked() && |s.toServer| == 1
    ensures Aligned(s')
  {
    AnswerGrows(s, sent, s');
    var phase := s.client.phase;
    var r := phase.Pending();
    assert Behind(s.toServer, [r]);
    assert s.toServer == s.toServer[0..] == [r];
    AnswersAreExpected(phase, sent);
    assert Awaiting(s') by {
      assert s'.toServer == [] && Solicited(s'.toClient) == sent;
    }
  }

  lemma AnswerWhileAligned(s: System, sent: seq<Packet>, s': System)
    requires Answering(s, sent, s') && Aligned(s)
    ensures Aligned(s')
  {
    if s.client.phase.Blocked() && |s.toServer| == 1 {
      AnswerToPending(s, sent, s');
    } else {
      if s.client.phase.Blocked() {
        BehindTail(s.toServer, [s.client.phase.Pending()]);
      } else {
        assert s.toServer[0] in s.toServer;
      }
      SilentAnswer(s, sent, s');
    }
  }

  lemma AnswerFirstOfTwo(s: System, sent: seq<Packet>, s': System)
    requires Answering(s, sent, s') && OneTooMany(s) && |s.toServer| == 2
    ensures OneTooMany(s')
  {
    AnswerGrows(s, sent, s');
    var m := s.client.phase.mixer;
    assert s.toServer == [GetNodeInfo(m, 0, -1), GetAllValues(m)];
    assert Solicited(s'.toClient) == sent;
    assert s'.said == s.heard + [(GetNodeInfo(m, 0, -1), sent[0])];
  }

  lemma AnswerSecondOfTwo(s: System, sent: seq<Packet>, s': System)
    requires Answering(s, sent, s') && OneTooMany(s) && |s.toServer| == 1
    ensures OneTooMany(s')
  {
    AnswerGrows(s, sent, s');
    assert s'.said == s.said + [(s.toServer[0], sent[0])];
  }

  lemma AnswerOneTooMany(s: System, sent: seq<Packet>, s': System)
    requires Answering(s, sent, s') && OneTooMany(s)
    ensures OneTooMany(s')
  {
    if |s.toServer| == 1 {
      AnswerSecondOfTwo(s, sent, s');
    } else if |s.toServer| == 2 {
      AnswerFirstOfTwo(s, sent, s');
    } else {
      BehindTail(s.toServer, [GetNodeInfo(s.client.phase.mixer, 0, -1), GetAllValues(s.client.phase.mixer)]);
      SilentAnswer(s, sent, s');
    }
  }

  lemma ServeKeeps(s: System, d: Device)
    requires s.Valid() && Inv(s) && s.toServer != [] && d.Valid()
    ensures Inv(ServerServe(s, d))
  {
    ServeIsAnswering(s, d);
    var sent, s' := Serve(s.server, s.toServer[0], d).sent, ServerServe(s, d);
    if Aligned(s) {
      AnswerWhileAligned(s, sent, s');
    } else if OneTooMany(s) {
      AnswerOneTooMany(s, sent, s');
    } else {
      CrossedStays(s, s');
    }
  }

  lemma EventsKeep(s: System, sent: seq<Packet>, s': System)
    requires Inv(s) && forall p :: p in sent ==> p.unsolicited && GoodEvent(p)
    requires s' == s.(server := s'.server, history := s'.history, toClient := s.toClient + sent)
    ensures Inv(s')
  {
    AllUnsolicited(sent);
    SolicitedConcat(s.toClient, sent);
    assert Solicited(s'.toClient) == Solicited(s.toClient);
    if Crossed(s) {
      CrossedStays(s, s');
    }
  }

  lemma PollKeeps(s: System, devices: seq<Device>, nmixers: int)
    requires s.Valid() && Inv(s) && nmixers <= MAX_TMP_MIXER == |devices| && forall d :: d in devices ==> d.Valid()
    ensures Inv(ServerPoll(s, devices, nmixers))
  {
    PollSendsEvents(s.server, if s.server.numMixers < 0 then 0 else s.server.numMixers, devices);
    EventsKeep(s, Poll(s.server, devices, nmixers).sent, ServerPoll(s, devices, nmixers));
  }

  lemma NextKeeps(s: System, step: Step)
    requires s.Valid() && Inv(s)
    ensures Inv(Next(s, step))
  {
    if Enabled(s, step) {
      match step
      case ClientCalls(call) => CallKeeps(s, call);
      case ClientReads => ReadKeeps(s);
      case ClientPolls => PollCallbackKeeps(s);
      case ServerServes(d) => ServeKeeps(s, d);
      case ServerPolls(devices, nmixers) => PollKeeps(s, devices, nmixers);
    }
  }

  lemma InitAligned(server: Server)
    requires server.Valid()
    ensures Aligned(Init0(server))
  {
    var s := Init0(server);
    AllSolicited([WELCOME]);
    assert s.said == s.heard + Pairs(Connect, [WELCOME]);
  }

  lemma {:induction false} ExecKeeps(s: System, steps: seq<Step>)
    requires s.Valid() && Inv(s)
    ensures Inv(Exec(s, steps))
  {
    if steps != [] {
      ExecKeeps(s, steps[..|steps| - 1]);
      NextKeeps(Exec(s, steps[..|steps| - 1]), steps[|steps| - 1]);
    }
  }

  /** Every reply reaches the call that asked for it, in every run from any state of the daemon:
      what the client heard, each packet paired with the request it took it to answer, is a prefix of
      what the daemon said; and this fails in exactly the runs where a reply was read after an open
      call had been told that the mixer has no nodes. */
  lemma RepliesCorrelate(server: Server, steps: seq<Step>)
    requires server.Valid()
    ensures var s := Exec(Init0(server), steps);
      s.heard <= s.said <==> s.stale != Misheard
  {
    var s0 := Init0(server);
    InitAligned(server);
    ExecKeeps(s0, steps);
  }

  /** As long as no open call has been told "0 nodes": the client never exits on an unknown event; while
      it is idle every queued packet is an event, so the poll callback never meets a reply, and every
      reply sent has been heard; and no blocked call waits for ever, since its request is still queued
      or an answer to it is. */
  lemma IdleMeetsOnlyEvents(server: Server, steps: seq<Step>)
    requires server.Valid()
    requires Exec(Init0(server), steps).stale == Never
    ensures var s := Exec(Init0(server), steps);
      && !s.client.phase.Dead?
      && (s.client.phase.Idle? ==> s.heard == s.said && forall p :: p in s.toClient ==> p.unsolicited && GoodEvent(p))
      && (s.client.phase.Blocked() ==>
            s.client.phase.Pending() in s.toServer || exists p :: p in s.toClient && !p.unsolicited)
  {
    var s0 := Init0(server);
    InitAligned(server);
    ExecKeeps(s0, steps);
    var s := Exec(s0, steps);
    if s.client.phase.Idle? {
      NoneSolicited(s.toClient);
    }
    if s.client.phase.Blocked() {
      var r := s.client.phase.Pending();
      if Behind(s.toServer, [r]) {
        assert s.toServer[|s.toServer| - 1] == r;
      } else {
        assert Solicited(s.toClient)[0] in s.toClient;
      }
    }
  }

  // ---------------------------------------------------------------- a reply misheard

  lemma OneStepMore(s: System, steps: seq<Step>, step: Step)
    requires s.Valid()
    ensures Exec(s, steps + [step]) == Next(Exec(s, steps), step)
  {
    assert (steps + [step])[..|steps|] == steps;
  }

  /** A mixer without nodes. */
  const NO_NODES := Device(1, true, 0, 0, map[], false, false, map[], None)

  /** Connecting, opening the mixer, counting its nodes, and the reply to the node request. */
  const MISHEARD_RUN: seq<Step> := [
    ClientReads, ServerServes(NO_NODES), ClientReads, ClientCalls(Open(0)), ServerServes(NO_NODES), ClientReads,
    ServerServes(NO_NODES), ClientReads, ServerServes(NO_NODES), ClientReads]

  /** The first three steps. */
  lemma Connected(server: Server) returns (s: System)
    requires server.Valid()
    ensures s.Valid() && s == Exec(Init0(server), MISHEARD_RUN[..3])
    ensures s.client == Client(Idle, map[]) && s.toServer == [] && s.toClient == [] && s.stale == Never
    ensures s.heard == s.said == [(Connect, WELCOME), (Init, Reply(CMD_OK))]
  {
    var s0 := Init0(server);
    var s1 := Next(s0, ClientReads);
    var s2 := Next(s1, ServerServes(NO_NODES));
    s := Next(s2, ClientReads);
    OneStepMore(s0, [], ClientReads);
    OneStepMore(s0, [ClientReads], ServerServes(NO_NODES));
    OneStepMore(s0, [ClientReads, ServerServes(NO_NODES)], ClientReads);
    assert [] + [ClientReads] == [ClientReads];
    assert MISHEARD_RUN[..3] == [ClientReads, ServerServes(NO_NODES)] + [ClientReads];
    assert s1.toServer == [Init] && s1.toClient == [];
    assert s2.toClient == [Reply(CMD_OK)] && s2.toServer == [];
  }

  /** The next three: the mixer has been opened and its nodes are asked for. */
  lemma Opened(server: Server) returns (s: System)
    requires server.Valid()
    ensures s.Valid() && s == Exec(Init0(server), MISHEARD_RUN[..6])
    ensures s.client == Client(Counting(0), map[])
    ensures s.toServer == [GetNrext(0)] && s.toClient == [] && s.stale == Never
    ensures s.heard == s.said == [(Connect, WELCOME), (Init, Reply(CMD_OK)), (OpenMixer(0), Reply(0))]
  {
    var s0 := Init0(server);
    var s3 := Connected(server);
    var s4 := Next(s3, ClientCalls(Open(0)));
    var s5 := Next(s4, ServerServes(NO_NODES));
    s := Next(s5, ClientReads);
    OneStepMore(s0, MISHEARD_RUN[..3], ClientCalls(Open(0)));
    OneStepMore(s0, MISHEARD_RUN[..4], ServerServes(NO_NODES));
    OneStepMore(s0, MISHEARD_RUN[..5], ClientReads);
    assert MISHEARD_RUN[..4] == MISHEARD_RUN[..3] + [ClientCalls(Open(0))];
    assert MISHEARD_RUN[..5] == MISHEARD_RUN[..4] + [ServerServes(NO_NODES)];
    assert MISHEARD_RUN[..6] == MISHEARD_RUN[..5] + [ClientReads];
    assert s4.toServer == [OpenMixer(0)];
    assert s5.toServer == [] && s5.toClient == [Reply(0)];
  }

  /** The client has been told that there are no nodes, and has asked for them all the same. */
  lemma Told(server: Server) returns (s: System)
    requires server.Valid()
    ensures s.Valid() && s == Exec(Init0(server), MISHEARD_RUN[..8])
    ensures s.client == Client(Snapshotting(0), map[]) && s.stale == Queued
    ensures s.toServer == [GetNodeInfo(0, 0, -1), GetAllValues(0)] && s.toClient == []
    ensures s.heard == s.said ==
      [(Connect, WELCOME), (Init, Reply(CMD_OK)), (OpenMixer(0), Reply(0)), (GetNrext(0), Reply(0))]
  {
    var s0 := Init0(server);
    var s6 := Opened(server);
    var s7 := Next(s6, ServerServes(NO_NODES));
    s := Next(s7, ClientReads);
    OneStepMore(s0, MISHEARD_RUN[..6], ServerServes(NO_NODES));
    OneStepMore(s0, MISHEARD_RUN[..7], ClientReads);
    assert MISHEARD_RUN[..7] == MISHEARD_RUN[..6] + [ServerServes(NO_NODES)];
    assert MISHEARD_RUN[..8] == MISHEARD_RUN[..7] + [ClientReads];
    assert s7.toServer == [] && s7.toClient == [Reply(0)];
  }

  /** Replies are misheard: from any state of the daemon ten steps lead to a client that has taken the error
      about a node for the snapshot it waits for. */
  lemma ReplyMisheard(server: Server)
    requires server.Valid()
    ensures var s := Exec(Init0(server), MISHEARD_RUN);
      && s.stale == Misheard && |s.said| == |s.heard| == 5
      && s.said[4] == (GetNodeInfo(0, 0, -1), Error(28)) && s.heard[4] == (GetAllValues(0), Error(28))
      && s.client.phase.Idle? && !(s.heard <= s.said)
  {
    var s0 := Init0(server);
    var s8 := Told(server);
    var s9 := Next(s8, ServerServes(NO_NODES));
    var s := Next(s9, ClientReads);
    OneStepMore(s0, MISHEARD_RUN[..8], ServerServes(NO_NODES));
    OneStepMore(s0, MISHEARD_RUN[..9], ClientReads);
    assert MISHEARD_RUN[..9] == MISHEARD_RUN[..8] + [ServerServes(NO_NODES)];
    assert MISHEARD_RUN == MISHEARD_RUN[..9] + [ClientReads];
    assert s9.toClient == [Error(28)];
  }
}
