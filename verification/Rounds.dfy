/** Decoding several channels in turns into one buffer: every round gives every channel a part. What the
    buffer holds in the end is the channels' streams, sample by sample side by side. */
module Rounds {
  import opened Weave

  // ---------------------------------------------------------------- channels side by side

  /** Samples of a channel, from its sample `t0` on, stand in their places. */
  ghost predicate HoldsFrom(out: seq<int>, c: nat, ch: nat, t0: nat, samples: seq<int>) {
    forall t: nat :: t0 <= t < t0 + |samples| ==> Slot(c, t, ch) < |out| && out[Slot(c, t, ch)] == samples[t - t0]
  }

  ghost predicate Holds(out: seq<int>, c: nat, ch: nat, stream: seq<int>) {
    HoldsFrom(out, c, ch, 0, stream)
  }

  ghost predicate At(out: seq<int>, s: nat, stream: seq<int>, t: nat) {
    s < |out| && t < |stream| && out[s] == stream[t]
  }

  ghost predicate Filled(out: seq<int>, c: nat, done: seq<seq<int>>) {
    |done| == c && forall ch: nat :: ch < c ==> Holds(out, c, ch, done[ch])
  }

  /** What was written before stays, in another channel or in this one. */
  lemma HoldsStill(before: seq<int>, c: nat, i: nat, t0: nat, samples: seq<int>, ch: nat, stream: seq<int>,
                   out: seq<int>)
    requires i < c && ch < c && (i != ch || |stream| <= t0) && Holds(before, c, ch, stream)
    requires samples != [] ==> Slot(c, t0, i) + Mul(c, |samples| - 1) < |before|
    requires out == Woven(before, Slot(c, t0, i), c, samples)
    ensures Holds(out, c, ch, stream)
  {
    forall t: nat | t < |stream| ensures out[Slot(c, t, ch)] == stream[t] {
      OthersStay(before, c, i, t0, samples, t, ch);
    }
  }

  /** What is new. */
  lemma HoldsNew(before: seq<int>, c: nat, i: nat, t0: nat, samples: seq<int>, out: seq<int>)
    requires i < c && (samples != [] ==> Slot(c, t0, i) + Mul(c, |samples| - 1) < |before|)
    requires out == Woven(before, Slot(c, t0, i), c, samples)
    ensures HoldsFrom(out, c, i, t0, samples)
  {
    forall t: nat | t0 <= t < t0 + |samples| ensures Slot(c, t, i) < |out| && out[Slot(c, t, i)] == samples[t - t0] {
      NewOnes(before, c, i, t0, samples, t);
    }
  }

  lemma Joined(out: seq<int>, c: nat, i: nat, stream: seq<int>, samples: seq<int>)
    requires Holds(out, c, i, stream) && HoldsFrom(out, c, i, |stream|, samples)
    ensures Holds(out, c, i, stream + samples)
  {
  }

  /** Writing on in one channel. */
  lemma HoldsMore(before: seq<int>, c: nat, i: nat, stream: seq<int>, samples: seq<int>, out: seq<int>)
    requires i < c && Holds(before, c, i, stream)
    requires samples != [] ==> Slot(c, |stream|, i) + Mul(c, |samples| - 1) < |before|
    requires out == Woven(before, Slot(c, |stream|, i), c, samples)
    ensures Holds(out, c, i, stream + samples)
  {
    HoldsStill(before, c, i, |stream|, samples, i, stream, out);
    HoldsNew(before, c, i, |stream|, samples, out);
    Joined(out, c, i, stream, samples);
  }

  lemma FilledMore(before: seq<int>, c: nat, i: nat, done: seq<seq<int>>, samples: seq<int>, out: seq<int>,
                   done': seq<seq<int>>)
    requires i < c && Filled(before, c, done)
    requires samples != [] ==> Slot(c, |done[i]|, i) + Mul(c, |samples| - 1) < |before|
    requires out == Woven(before, Slot(c, |done[i]|, i), c, samples) && done' == done[i := done[i] + samples]
    ensures Filled(out, c, done')
  {
    forall ch: nat | ch < c ensures Holds(out, c, ch, done'[ch]) {
      if ch == i {
        HoldsMore(before, c, i, done[i], samples, out);
      } else {
        HoldsStill(before, c, i, |done[i]|, samples, ch, done[ch], out);
      }
    }
  }

  /** The first `n` samples of every channel, side by side: sample `s` of the buffer is sample `s / c` of
      channel `s % c`. */
  ghost predicate Tiled(out: seq<int>, c: nat, n: nat, streams: seq<seq<int>>)
    requires c > 0 && |streams| == c
  {
    && Mul(c, n) <= |out|
    && forall s: nat :: s < Mul(c, n) ==>
      ChannelOf(c, s) < c && TimeOf(c, s) < n && At(out, s, streams[ChannelOf(c, s)], TimeOf(c, s))
  }

  lemma FilledAt(out: seq<int>, c: nat, done: seq<seq<int>>, n: nat, s: nat)
    requires c > 0 && Filled(out, c, done) && s < Mul(c, n) && forall ch: nat :: ch < c ==> n <= |done[ch]|
    ensures ChannelOf(c, s) < c && TimeOf(c, s) < n && At(out, s, done[ChannelOf(c, s)], TimeOf(c, s))
  {
    SlotOf(c, s);
    if TimeOf(c, s) >= n {
      MulSum(c, n, TimeOf(c, s) - n);
    }
    assert Holds(out, c, ChannelOf(c, s), done[ChannelOf(c, s)]);
    assert Slot(c, TimeOf(c, s), ChannelOf(c, s)) == s;
  }

  lemma FilledAll(out: seq<int>, c: nat, done: seq<seq<int>>, n: nat, streams: seq<seq<int>>)
    requires c > 0 && Filled(out, c, done) && |streams| == c
    requires forall ch: nat :: ch < c ==> n <= |done[ch]| && streams[ch] == done[ch][..n]
    ensures Tiled(out, c, n, streams)
  {
    forall s: nat | s < Mul(c, n)
      ensures ChannelOf(c, s) < c && TimeOf(c, s) < n && At(out, s, streams[ChannelOf(c, s)], TimeOf(c, s))
    {
      FilledAt(out, c, done, n, s);
    }
    if Mul(c, n) > |out| {
      FilledAt(out, c, done, n, |out|);
    }
  }

  // ---------------------------------------------------------------- rounds

  /** The parts of a decoding: for every channel what comes before the rounds, and its part in a round. */
  datatype Plan = Plan(head: nat -> seq<int>, part: (nat, nat) -> seq<int>, first: nat, size: nat) {
    /** The samples of a channel up to round `k`. */
    function Stream(ch: nat, k: nat): seq<int> {
      if k == 0 then head(ch) else Stream(ch, k - 1) + part(ch, k - 1)
    }

    /** How many these are when no part is missing. */
    function Length(k: nat): nat {
      first + size * k
    }

    function Streams(c: nat, k: nat): (r: seq<seq<int>>)
      ensures |r| == c
    {
      seq(c, ch requires 0 <= ch => Stream(ch, k))
    }

    ghost predicate Bounded() {
      (forall ch :: |head(ch)| <= first) && forall ch, k :: |part(ch, k)| <= size
    }
  }

  /** How far the decoder is: in round `k`, before channel `i`. */
  ghost predicate Progress(plan: Plan, out: seq<int>, c: nat, k: nat, i: nat, done: seq<seq<int>>) {
    && Filled(out, c, done)
    && forall ch: nat :: ch < c ==>
      var n := if ch < i then k + 1 else k;
      done[ch] == plan.Stream(ch, n) && |done[ch]| == plan.Length(n)
  }

  /** One part more is done. */
  lemma PartDone(plan: Plan, out: seq<int>, before: seq<int>, c: nat, k: nat, i: nat, done: seq<seq<int>>,
                 part: seq<int>)
    returns (done': seq<seq<int>>)
    requires Progress(plan, before, c, k, i, done) && i < c && part == plan.part(i, k) && |part| == plan.size > 0
    requires Slot(c, plan.Length(k), i) + Mul(c, plan.size - 1) < |before|
    requires out == Woven(before, Slot(c, plan.Length(k), i), c, part)
    ensures Progress(plan, out, c, k, i + 1, done')
  {
    var stream := done[i] + part;
    done' := done[i := stream];
    FilledMore(before, c, i, done, part, out, done');
    forall ch: nat | ch < c
      ensures var n := if ch < i + 1 then k + 1 else k;
        done'[ch] == plan.Stream(ch, n) && |done'[ch]| == plan.Length(n)
    {
      if ch != i {
        assert done'[ch] == done[ch];
      }
    }
  }

  lemma RoundDone(plan: Plan, out: seq<int>, c: nat, k: nat, done: seq<seq<int>>)
    requires Progress(plan, out, c, k, c, done)
    ensures Progress(plan, out, c, k + 1, 0, done)
  {
  }

  /** The complete rounds are the beginnings of what is done. */
  lemma Finished(plan: Plan, out: seq<int>, c: nat, k: nat, i: nat, done: seq<seq<int>>)
    requires c > 0 && plan.Bounded() && Progress(plan, out, c, k, i, done)
    ensures Tiled(out, c, plan.Length(k), plan.Streams(c, k))
  {
    var n := plan.Length(k);
    forall ch: nat | ch < c ensures n <= |done[ch]| && plan.Streams(c, k)[ch] == done[ch][..n] {
      StreamBounded(plan, ch, k);
      assert |plan.part(ch, k)| <= plan.size;
      if ch < i {
        Beginning(plan.Stream(ch, k), plan.part(ch, k), done[ch], n, plan.size);
      }
    }
    FilledAll(out, c, done, n, plan.Streams(c, k));
  }

  lemma Beginning(a: seq<int>, b: seq<int>, d: seq<int>, n: nat, m: nat)
    requires d == a + b && |d| == n + m && |a| <= n && |b| <= m
    ensures a == d[..n]
  {
  }

  lemma {:induction false} StreamBounded(plan: Plan, ch: nat, k: nat)
    requires plan.Bounded()
    ensures |plan.Stream(ch, k)| <= plan.Length(k)
  {
    if k > 0 {
      StreamBounded(plan, ch, k - 1);
      assert |plan.part(ch, k - 1)| <= plan.size;
    }
  }
}
