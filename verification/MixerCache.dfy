/** The settings cache of libossmix: what one cached mixer holds (`Mixer`), what every cache
    operation does to it (functions), and the cache itself with its fixed-size tables and its
    byte mask updated in place (`LocalMixer`). */
module MixerCache {
  import opened Basics
  import opened ChangeMask

  const MAX_TMP_NODES: nat := 1024


  /** The part of an `oss_mixext` record the cache looks at. */
  datatype NodeInfo = NodeInfo(ctrl: int, kind: int, timestamp: int) {
    /** True unless the entry is a device root (0), a group (1) or a marker (12). */
    predicate Leaf() {
      kind != 0 && kind != 1 && kind != 12
    }
  }

  /** One `value_record_t`. */
  datatype Rec = Rec(node: int, value: int)

  datatype Mixer = Mixer(nrext: nat, nodes: seq<Option<NodeInfo>>, values: seq<int>, changed: seq<bool>) {
    predicate Valid() {
      && nrext <= |nodes| == |values| == |changed| == MAX_TMP_NODES
      && forall i :: nrext <= i < |nodes| ==> nodes[i].None?
    }

    predicate IsLeaf(i: int) {
      0 <= i < |nodes| && nodes[i].Some? && nodes[i].value.Leaf()
    }
  }

  function EmptyMixer(): (m: Mixer)
    ensures m.Valid()
  {
    Mixer(0, seq(MAX_TMP_NODES, _ => None), seq(MAX_TMP_NODES, _ => -1), seq(MAX_TMP_NODES, _ => false))
  }

  function AddNode(m: Mixer, node: nat, ext: NodeInfo): (r: Mixer)
    requires m.Valid() && node < MAX_TMP_NODES && ext.ctrl == node
    ensures r.Valid()
  {
    m.(nrext := if ext.ctrl >= m.nrext then ext.ctrl + 1 else m.nrext, nodes := m.nodes[node := Some(ext)])
  }

  function SetValue(m: Mixer, node: nat, value: int): (r: Mixer)
    requires m.Valid() && node < MAX_TMP_NODES
    ensures r.Valid()
  {
    m.(values := m.values[node := value], changed := m.changed[node := m.changed[node] || m.values[node] != value])
  }

  /** Reading a value forgets that it had changed. */
  function ForgetChange(m: Mixer, node: nat): (r: Mixer)
    requires m.Valid() && node < MAX_TMP_NODES
    ensures r.Valid()
  {
    m.(changed := m.changed[node := false])
  }

  function ClearFlags(m: Mixer): (r: Mixer)
    requires m.Valid()
    ensures r.Valid()
  {
    m.(changed := seq(MAX_TMP_NODES, _ => false))
  }

  /** One pass of the daemon's refresh loop over node `i`; `dev` holds the successful device reads. */
  function RefreshOne(m: Mixer, i: nat, dev: map<int, int>): (r: Mixer)
    requires m.Valid() && i < MAX_TMP_NODES
    ensures r.Valid()
  {
    if !m.IsLeaf(i) then m
    else if i in dev then SetValue(ForgetChange(m, i), i, dev[i])
    else ForgetChange(m, i)
  }

  function Refresh(m: Mixer, n: nat, dev: map<int, int>): (r: Mixer)
    requires m.Valid() && n <= MAX_TMP_NODES
    ensures r.Valid()
  {
    if n == 0 then m else RefreshOne(Refresh(m, n - 1, dev), n - 1, dev)
  }

  /** True when the collecting loop puts node `i` into the value packet. */
  predicate Reported(m: Mixer, i: int, changeCheck: bool)
    requires m.Valid()
  {
    m.IsLeaf(i) && (changeCheck ==> m.changed[i])
  }

  function Collect(m: Mixer, n: nat, changeCheck: bool): (r: seq<Rec>)
    requires m.Valid() && n <= MAX_TMP_NODES
    ensures |r| <= n
  {
    if n == 0 then []
    else Collect(m, n - 1, changeCheck) + if Reported(m, n - 1, changeCheck) then [Rec(n - 1, m.values[n - 1])] else []
  }

  /** The cache after collecting: the reported nodes count as seen. */
  function Collected(m: Mixer, n: nat, changeCheck: bool): (r: Mixer)
    requires m.Valid() && n <= MAX_TMP_NODES
    ensures r.Valid()
  {
    m.(changed := seq(MAX_TMP_NODES, i requires 0 <= i < MAX_TMP_NODES =>
      if i < n && Reported(m, i, changeCheck) then false else m.changed[i]))
  }

  /** What one poll of an open mixer reports: refresh, then collect the changed leaves. */
  function PollRecords(m: Mixer, n: nat, dev: map<int, int>): seq<Rec>
    requires m.Valid() && n <= MAX_TMP_NODES
  {
    var refreshed := Refresh(m, n, dev);
    Collect(refreshed, refreshed.nrext, true)
  }

  function PollMixer(m: Mixer, n: nat, dev: map<int, int>): (r: Mixer)
    requires m.Valid() && n <= MAX_TMP_NODES
    ensures r.Valid()
  {
    var refreshed := Refresh(m, n, dev);
    var collected := Collected(refreshed, refreshed.nrext, true);
    if PollRecords(m, n, dev) == [] then collected else ClearFlags(collected)
  }

  /** The refresh loop in closed form: a visited leaf takes the value the device delivered and is
      flagged exactly when that value is new; nothing else moves. */
  lemma {:induction false} RefreshMeaning(m: Mixer, n: nat, dev: map<int, int>)
    requires m.Valid() && n <= MAX_TMP_NODES
    ensures var r := Refresh(m, n, dev);
      && r.nrext == m.nrext && r.nodes == m.nodes
      && forall i :: 0 <= i < MAX_TMP_NODES ==>
           && r.values[i] == (if i < n && m.IsLeaf(i) && i in dev then dev[i] else m.values[i])
           && r.changed[i] == (if i < n && m.IsLeaf(i) then i in dev && dev[i] != m.values[i] else m.changed[i])
  {
    if n > 0 {
      RefreshMeaning(m, n - 1, dev);
    }
  }

  ghost predicate Ascending(r: seq<Rec>) {
    forall i, j :: 0 <= i < j < |r| ==> r[i].node < r[j].node
  }

  /** The collecting loop lists the reported nodes below `n`, each once, in ascending order,
      each with its cached value. */
  lemma {:induction false} CollectMeaning(m: Mixer, n: nat, changeCheck: bool)
    requires m.Valid() && n <= MAX_TMP_NODES
    ensures var r := Collect(m, n, changeCheck);
      && Ascending(r)
      && (forall k :: 0 <= k < |r| ==>
            0 <= r[k].node < n && Reported(m, r[k].node, changeCheck) && r[k].value == m.values[r[k].node])
      && forall i :: 0 <= i < n && Reported(m, i, changeCheck) ==> Rec(i, m.values[i]) in r
  {
    if n > 0 {
      CollectMeaning(m, n - 1, changeCheck);
    }
  }

  /** The node is a leaf that one poll has news about: among the `n` nodes the device has, a
      successful read that differs from the cached value; beyond them, a change still unseen. */
  predicate News(m: Mixer, n: nat, dev: map<int, int>, i: int)
    requires m.Valid()
  {
    m.IsLeaf(i) && if i < n then i in dev && dev[i] != m.values[i] else m.changed[i]
  }

  /** The value of node `i` after a refresh. */
  function Refreshed(m: Mixer, n: nat, dev: map<int, int>, i: nat): int
    requires m.Valid() && i < MAX_TMP_NODES
  {
    if i < n && m.IsLeaf(i) && i in dev then dev[i] else m.values[i]
  }

  /** The change mask refines a set: one poll reports, in ascending order and once each, exactly the
      leaves with news, each with its value after the refresh. */
  lemma PollReportsNews(m: Mixer, n: nat, dev: map<int, int>)
    requires m.Valid() && n <= MAX_TMP_NODES
    ensures Ascending(PollRecords(m, n, dev))
    ensures forall i, v ::
      Rec(i, v) in PollRecords(m, n, dev) <==> News(m, n, dev, i) && v == Refreshed(m, n, dev, i)
  {
    var refreshed := Refresh(m, n, dev);
    RefreshMeaning(m, n, dev);
    CollectMeaning(refreshed, refreshed.nrext, true);
    assert forall i :: News(m, n, dev, i) <==> Reported(refreshed, i, true);
    var r := PollRecords(m, n, dev);
    forall i, v
      ensures Rec(i, v) in r <==> News(m, n, dev, i) && v == Refreshed(m, n, dev, i)
    {
      if Rec(i, v) in r {
        var k :| 0 <= k < |r| && r[k] == Rec(i, v);
        assert Reported(refreshed, r[k].node, true);
      }
    }
  }

  /** After a poll the cache holds every value read, and no leaf is flagged any more. */
  lemma PollLeavesNothing(m: Mixer, n: nat, dev: map<int, int>)
    requires m.Valid() && n <= MAX_TMP_NODES
    ensures var after := PollMixer(m, n, dev);
      && after.nrext == m.nrext && after.nodes == m.nodes
      && forall i :: 0 <= i < MAX_TMP_NODES ==>
           after.values[i] == Refreshed(m, n, dev, i) && (m.IsLeaf(i) ==> !after.changed[i])
  {
    RefreshMeaning(m, n, dev);
  }

  /** Collecting node `n` as well. */
  lemma CollectedStep(m: Mixer, n: nat, changeCheck: bool)
    requires m.Valid() && n < MAX_TMP_NODES
    ensures Collected(m, n, changeCheck).changed[n] == m.changed[n]
    ensures Collected(m, n + 1, changeCheck) ==
      if Reported(m, n, changeCheck) then ForgetChange(Collected(m, n, changeCheck), n)
      else Collected(m, n, changeCheck)
  {
    var before := Collected(m, n, changeCheck);
    var expected := if Reported(m, n, changeCheck) then ForgetChange(before, n) else before;
    assert Collected(m, n + 1, changeCheck).changed == expected.changed;
  }

  /** One mixer of the cache. `nodes`, `values` and `changemask` are the fixed tables of the C record. */
  class LocalMixer {
    var nrext: nat
    const nodes: array<Option<NodeInfo>>
    const values: array<int>
    const changemask: array<bv8>

    ghost predicate Within(repr: set<object>) {
      this in repr && nodes in repr && values in repr && changemask in repr
    }

    /** Nothing is shared. */
    ghost predicate Apart(other: LocalMixer) {
      this != other && nodes != other.nodes && values != other.values && changemask != other.changemask
    }

    ghost predicate Valid()
      reads this, nodes
    {
      && nodes.Length == values.Length == MAX_TMP_NODES == 8 * changemask.Length
      && nrext <= MAX_TMP_NODES
      && forall i :: nrext <= i < nodes.Length ==> nodes[i].None?
    }

    ghost function State(): (m: Mixer)
      requires Valid()
      reads this, nodes, values, changemask
      ensures m.Valid()
    {
      Mixer(nrext, nodes[..], values[..], Flags(changemask[..]))
    }

    constructor ()
      ensures Valid() && State() == EmptyMixer()
      ensures fresh(nodes) && fresh(values) && fresh(changemask)
    {
      nrext := 0;
      nodes := new Option<NodeInfo>[MAX_TMP_NODES](_ => None);
      values := new int[MAX_TMP_NODES](_ => -1);
      changemask := new bv8[MAX_TMP_NODES / 8](_ => 0);
      new;
      assert values[..] == EmptyMixer().values;
      assert nodes[..] == EmptyMixer().nodes;
      assert Flags(changemask[..]) == EmptyMixer().changed;
    }

    /** `exited` stands for the process exit on a node number that is too large. The number of nodes follows
        the record's control number, the place in the table the node's; where they are the same, as devices
        have it, this is the specified addition. */
    method Add(node: nat, ext: NodeInfo) returns (exited: bool)
      requires Valid()
      modifies this`nrext, nodes
      ensures exited <==> node >= MAX_TMP_NODES
      ensures nrext == if ext.ctrl >= old(nrext) then ext.ctrl + 1 else old(nrext)
      ensures nodes[..] == if exited then old(nodes[..]) else old(nodes[..])[node := Some(ext)]
      ensures !exited && ext.ctrl == node ==> Valid() && State() == AddNode(old(State()), node, ext)
    {
      if ext.ctrl >= nrext {
        nrext := ext.ctrl + 1;
      }
      if node >= MAX_TMP_NODES {
        return true;
      }
      nodes[node] := Some(ext);
      return false;
    }

    method Set(node: nat, value: int) returns (exited: bool)
      requires Valid()
      modifies values, changemask
      ensures exited <==> node >= MAX_TMP_NODES
      ensures State() == if exited then old(State()) else SetValue(old(State()), node, value)
    {
      if node >= MAX_TMP_NODES {
        return true;
      }
      if values[node] != value {
        SetBit(changemask, node);
      }
      values[node] := value;
      assert values[..] == old(values[..])[node := value];
      return false;
    }

    method Get(node: nat) returns (exited: bool, value: int)
      requires Valid()
      modifies changemask
      ensures exited <==> node >= MAX_TMP_NODES
      ensures State() == if exited then old(State()) else ForgetChange(old(State()), node)
      ensures !exited ==> value == old(State()).values[node]
    {
      if node >= MAX_TMP_NODES {
        return true, -1;
      }
      Forget(node);
      return false, values[node];
    }

    /** The statement that clears one bit of the mask. */
    method Forget(node: nat)
      requires Valid() && node < MAX_TMP_NODES
      modifies changemask
      ensures State() == ForgetChange(old(State()), node)
    {
      ClearBit(changemask, node);
    }

    method ClearChangeFlags()
      requires Valid()
      modifies changemask
      ensures State() == ClearFlags(old(State()))
    {
      for i := 0 to changemask.Length
        invariant forall k :: 0 <= k < i ==> changemask[k] == 0
      {
        changemask[i] := 0;
      }
      assert Flags(changemask[..]) == ClearFlags(old(State())).changed;
    }

    /** The daemon's refresh: `n` is the device's node count, `dev` its successful reads. The driver
        caches what it read; the daemon caches it again unless the value is negative. */
    method UpdateValues(n: int, dev: map<int, int>) returns (exited: bool)
      requires Valid()
      modifies values, changemask
      ensures exited <==> n > MAX_TMP_NODES
      ensures !exited ==> State() == Refresh(old(State()), if n < 0 then 0 else n, dev)
    {
      var i := 0;
      while i < n
        invariant 0 <= i && i <= MAX_TMP_NODES && (i <= n || i == 0)
        invariant State() == Refresh(old(State()), i, dev)
      {
        if i >= MAX_TMP_NODES {
          return true;
        }
        ghost var before := State();
        if nodes[i].Some? && nodes[i].value.Leaf() {
          var _, previous := Get(i);
          if i in dev {
            var _ := Set(i, dev[i]);
            if dev[i] >= 0 {
              ghost var once := State();
              var _ := Set(i, dev[i]);
              assert State().changed == once.changed && State().values == once.values;
            }
          }
        }
        assert State() == RefreshOne(before, i, dev);
        i := i + 1;
      }
      return false;
    }

    /** The value of node `i` behind the `n` that have been collected of the mixer as it was. */
    method CollectNode(packet: array<Rec>, n: nat, i: nat, changeCheck: bool, ghost m: Mixer) returns (n': nat)
      requires Valid() && m.Valid() && packet.Length == MAX_TMP_NODES && n <= i < nrext
      requires packet[..n] == Collect(m, i, changeCheck) && State() == Collected(m, i, changeCheck)
      modifies packet, changemask
      ensures n' <= i + 1
      ensures packet[..n'] == Collect(m, i + 1, changeCheck) && State() == Collected(m, i + 1, changeCheck)
    {
      n' := n;
      CollectedStep(m, i, changeCheck);
      assert Test(changemask[i / 8], i % 8) == State().changed[i];
      if nodes[i].Some? && !(changeCheck && !Test(changemask[i / 8], i % 8)) && nodes[i].value.Leaf() {
        packet[n] := Rec(i, values[i]);
        n' := n + 1;
        Forget(i);
      }
    }

    method GetAllValues(packet: array<Rec>, changeCheck: bool) returns (n: nat)
      requires Valid() && packet.Length == MAX_TMP_NODES
      modifies packet, changemask
      ensures n <= packet.Length
      ensures packet[..n] == Collect(old(State()), old(nrext), changeCheck)
      ensures State() == Collected(old(State()), old(nrext), changeCheck)
    {
      n := 0;
      ghost var m := State();
      assert Collected(m, 0, changeCheck).changed == m.changed;
      for i := 0 to nrext
        invariant n <= i
        invariant packet[..n] == Collect(m, i, changeCheck) && State() == Collected(m, i, changeCheck)
      {
        n := CollectNode(packet, n, i, changeCheck, m);
      }
    }

    /** A refresh, all values, and all flags cleared. */
    method TakeSnapshot(n: int, dev: map<int, int>) returns (sent: seq<Rec>)
      requires Valid() && n <= MAX_TMP_NODES
      modifies values, changemask
      ensures var refreshed := Refresh(old(State()), if n < 0 then 0 else n, dev);
        && sent == Collect(refreshed, refreshed.nrext, false)
        && State() == ClearFlags(Collected(refreshed, refreshed.nrext, false))
    {
      var exited := UpdateValues(n, dev);
      var packet := new Rec[MAX_TMP_NODES](_ => Rec(0, 0));
      var count := GetAllValues(packet, false);
      sent := packet[..count];
      ClearChangeFlags();
    }

    /** The body of the daemon's polling loop for one open mixer; `sent` is the event it sends. */
    method Poll(n: int, dev: map<int, int>) returns (exited: bool, sent: seq<Rec>)
      requires Valid()
      modifies values, changemask
      ensures exited <==> n > MAX_TMP_NODES
      ensures !exited ==> State() == PollMixer(old(State()), if n < 0 then 0 else n, dev)
      ensures !exited ==> sent == PollRecords(old(State()), if n < 0 then 0 else n, dev)
    {
      sent := [];
      exited := UpdateValues(n, dev);
      if exited {
        return;
      }
      var packet := new Rec[MAX_TMP_NODES](_ => Rec(0, 0));
      var count := GetAllValues(packet, true);
      if count == 0 {
        return;
      }
      sent := packet[..count];
      ClearChangeFlags();
    }
  }

  // ---------------------------------------------------------------- the table of mixers

  /** The table of mixers of the cache, and the calls that name a mixer in it; `contents` is the table as a
      value. */
  class CacheTable {
    var mixers: map<nat, LocalMixer>
    ghost var contents: map<nat, Mixer>
    ghost var Repr: set<object>

    /** The mixers share nothing. */
    ghost predicate Valid()
      reads this, Repr
    {
      && this in Repr && contents.Keys == mixers.Keys
      && (forall m :: m in mixers ==> mixers[m].Within(Repr))
      && (forall m :: m in mixers ==> mixers[m].Valid() && mixers[m].State() == contents[m])
      && forall m, k :: m in mixers && k in mixers && m != k ==> mixers[m].Apart(mixers[k])
    }

    constructor ()
      ensures Valid() && fresh(Repr) && contents == map[]
    {
      mixers, contents := map[], map[];
      new;
      Repr := {this};
    }

    /** A mixer that is not there yet is made. */
    method Make(mixer: nat)
      requires Valid()
      modifies this
      ensures Valid() && fresh(Repr - old(Repr)) && mixer in mixers
      ensures contents == if mixer in old(contents) then old(contents) else old(contents)[mixer := EmptyMixer()]
    {
      if mixer !in mixers {
        var m := new LocalMixer();
        Place(mixer, m);
      }
    }

    method Place(mixer: nat, m: LocalMixer)
      requires Valid() && mixer !in mixers && m.Valid() && m.State() == EmptyMixer()
      requires m !in Repr && m.nodes !in Repr && m.values !in Repr && m.changemask !in Repr
      modifies this
      ensures Valid() && Repr == old(Repr) + {m, m.nodes, m.values, m.changemask}
      ensures mixers == old(mixers)[mixer := m] && contents == old(contents)[mixer := EmptyMixer()]
    {
      ghost var before, repr, was := mixers, Repr, contents;
      mixers, contents := mixers[mixer := m], contents[mixer := EmptyMixer()];
      Repr := Repr + {m, m.nodes, m.values, m.changemask};
      forall k | k in before
        ensures m.Apart(before[k]) && before[k].Apart(m) && before[k].Valid() && before[k].State() == was[k]
      {
        assert before[k].Within(repr);
      }
      Placed(before, repr, mixer);
    }

    /** The table with a new mixer, when the others are what they were. */
    lemma Placed(before: map<nat, LocalMixer>, repr: set<object>, mixer: nat)
      requires mixer !in before && mixer in mixers
      requires mixers == before[mixer := mixers[mixer]] && contents.Keys == mixers.Keys
      requires this in repr && repr <= Repr && mixers[mixer].Within(Repr)
      requires forall k :: k in before ==> mixers[mixer].Apart(before[k]) && before[k].Apart(mixers[mixer])
      requires mixers[mixer].Valid() && mixers[mixer].State() == contents[mixer]
      requires forall k :: k in before ==> before[k].Within(repr)
      requires forall k :: k in before ==> before[k].Valid() && before[k].State() == contents[k]
      requires forall k, l :: k in before && l in before && k != l ==> before[k].Apart(before[l])
      ensures Valid()
    {
      forall k, l | k in mixers && l in mixers && k != l ensures mixers[k].Apart(mixers[l]) {
        assert k == mixer || l == mixer || (k in before && l in before);
      }
    }

    method Insert(mixer: nat, node: nat, ext: NodeInfo)
      requires Valid() && ext.ctrl == node < MAX_TMP_NODES
      modifies Repr
      ensures Valid() && fresh(Repr - old(Repr))
      ensures var m := if mixer in old(contents) then old(contents)[mixer] else EmptyMixer();
        m.Valid() && contents == old(contents)[mixer := AddNode(m, node, ext)]
    {
      Make(mixer);
      AddThere(mixer, node, ext);
    }

    method AddThere(mixer: nat, node: nat, ext: NodeInfo)
      requires Valid() && mixer in mixers && ext.ctrl == node < MAX_TMP_NODES
      modifies Repr
      ensures Valid() && Repr == old(Repr) && mixers == old(mixers)
      ensures old(contents)[mixer].Valid()
      ensures contents == old(contents)[mixer := AddNode(old(contents)[mixer], node, ext)]
    {
      var _ := mixers[mixer].Add(node, ext);
      forall k | k in mixers && k != mixer ensures mixers[k].Valid() && mixers[k].State() == contents[k] {
        assert mixers[k].Apart(mixers[mixer]);
      }
      Update(mixer);
    }

    /** One mixer has changed; `contents` follows. */
    ghost method Update(mixer: nat)
      requires this in Repr && contents.Keys == mixers.Keys && mixer in mixers && mixers[mixer].Valid()
      requires forall m :: m in mixers ==> mixers[m].Within(Repr)
      requires forall m :: m in mixers && m != mixer ==> mixers[m].Valid() && mixers[m].State() == contents[m]
      requires forall m, k :: m in mixers && k in mixers && m != k ==> mixers[m].Apart(mixers[k])
      modifies this`contents
      ensures Valid() && contents == old(contents)[mixer := mixers[mixer].State()]
    {
      ghost var was, state := contents, mixers[mixer].State();
      contents := contents[mixer := state];
      assert mixers[mixer].Valid() && mixers[mixer].State() == state;
      forall m | m in mixers && m != mixer ensures mixers[m].Valid() && mixers[m].State() == was[m] == contents[m] {
      }
    }

    /** Without the mixer nothing is stored. */
    method Store(mixer: nat, node: nat, value: int)
      requires Valid() && node < MAX_TMP_NODES
      modifies Repr
      ensures Valid() && Repr == old(Repr) && mixers == old(mixers)
      ensures mixer in old(contents) ==> old(contents)[mixer].Valid()
      ensures contents == if mixer in old(contents)
        then old(contents)[mixer := SetValue(old(contents)[mixer], node, value)] else old(contents)
    {
      if mixer in mixers {
        StoreThere(mixer, node, value);
      }
    }

    method StoreThere(mixer: nat, node: nat, value: int)
      requires Valid() && mixer in mixers && node < MAX_TMP_NODES
      modifies Repr
      ensures Valid() && Repr == old(Repr) && mixers == old(mixers)
      ensures old(contents)[mixer].Valid()
      ensures contents == old(contents)[mixer := SetValue(old(contents)[mixer], node, value)]
    {
      var _ := mixers[mixer].Set(node, value);
      forall k | k in mixers && k != mixer ensures mixers[k].Valid() && mixers[k].State() == contents[k] {
        assert mixers[k].Apart(mixers[mixer]);
      }
      Update(mixer);
    }

    /** Refreshing a mixer and collecting all its values. */
    method Snapshot(mixer: nat, n: int, dev: map<int, int>) returns (records: seq<Rec>)
      requires Valid() && mixer in mixers && n <= MAX_TMP_NODES
      modifies Repr
      ensures Valid() && Repr == old(Repr) && mixers == old(mixers) && old(contents)[mixer].Valid()
      ensures var refreshed := Refresh(old(contents)[mixer], if n < 0 then 0 else n, dev);
        && records == Collect(refreshed, refreshed.nrext, false)
        && contents == old(contents)[mixer := ClearFlags(Collected(refreshed, refreshed.nrext, false))]
    {
      var m := mixers[mixer];
      ghost var refreshed := Refresh(m.State(), if n < 0 then 0 else n, dev);
      records := m.TakeSnapshot(n, dev);
      assert m.State() == ClearFlags(Collected(refreshed, refreshed.nrext, false));
      forall k | k in mixers && k != mixer ensures mixers[k].Valid() && mixers[k].State() == contents[k] {
        assert mixers[k].Apart(mixers[mixer]);
      }
      Update(mixer);
    }

    /** Polling a mixer. */
    method PollOne(mixer: nat, n: int, dev: map<int, int>) returns (records: seq<Rec>)
      requires Valid() && mixer in mixers && n <= MAX_TMP_NODES
      modifies Repr
      ensures Valid() && Repr == old(Repr) && mixers == old(mixers) && old(contents)[mixer].Valid()
      ensures records == PollRecords(old(contents)[mixer], if n < 0 then 0 else n, dev)
      ensures contents == old(contents)[mixer := PollMixer(old(contents)[mixer], if n < 0 then 0 else n, dev)]
    {
      var exited;
      var m := mixers[mixer];
      ghost var was := m.State();
      exited, records := m.Poll(n, dev);
      assert m.State() == PollMixer(was, if n < 0 then 0 else n, dev);
      forall k | k in mixers && k != mixer ensures mixers[k].Valid() && mixers[k].State() == contents[k] {
        assert mixers[k].Apart(mixers[mixer]);
      }
      Update(mixer);
    }
  }
}
