/** Samples of several channels in one buffer: sample `t` of channel `ch` stands at `c * t + ch`. */
module Weave {

  /** `c` times `t`, by adding up. */
  function Mul(c: nat, t: nat): nat {
    if t == 0 then 0 else Mul(c, t - 1) + c
  }

  lemma {:induction false} MulIs(c: nat, t: nat)
    ensures Mul(c, t) == c * t
  {
    if t > 0 {
      MulIs(c, t - 1);
      assert c * t == c * (t - 1) + c;
    }
  }

  lemma {:induction false} MulSum(c: nat, a: nat, b: nat)
    ensures Mul(c, a + b) == Mul(c, a) + Mul(c, b)
  {
    if b > 0 {
      MulSum(c, a, b - 1);
      assert Mul(c, a + b) == Mul(c, a + b - 1) + c;
    }
  }

  lemma MulMore(c: nat, a: nat, b: nat)
    ensures Mul(c, a + b) == Mul(c, a) + b * c
  {
    MulSum(c, a, b);
    MulIs(c, b);
  }

  lemma MulScale(c: nat, r: nat, t: nat)
    ensures Mul(c, r * t) == r * Mul(c, t)
  {
    MulIs(c, r * t);
    MulIs(c, t);
    Exchange(c, r, t);
  }

  lemma Exchange(a: nat, b: nat, c: nat)
    ensures a * (b * c) == b * (a * c)
  {
  }

  lemma {:induction false} MulGrows(c: nat, a: nat, b: nat)
    requires a < b
    ensures Mul(c, a) + c <= Mul(c, b)
  {
    MulSum(c, a + 1, b - a - 1);
  }

  /** Where sample and channel are found again. */
  lemma {:induction false} SlotSplits(c: nat, t: nat, ch: nat)
    requires ch < c
    ensures (Mul(c, t) + ch) / c == t && (Mul(c, t) + ch) % c == ch
    decreases t
  {
    MulIs(c, t);
    Divided(c, t, ch, c * t + ch);
  }

  lemma Divided(c: nat, t: nat, ch: nat, s: nat)
    requires ch < c && s == c * t + ch
    ensures s / c == t && s % c == ch
  {
    var q, r := s / c, s % c;
    assert s == c * q + r;
    if q < t {
      Product(c, q + 1, t);
    } else if q > t {
      Product(c, t + 1, q);
    }
  }

  lemma {:induction false} Product(c: nat, a: nat, b: nat)
    requires a <= b
    ensures c * a <= c * b
    decreases b - a
  {
    if a < b {
      Product(c, a + 1, b);
    }
  }

  function Slot(c: nat, t: nat, ch: nat): nat {
    Mul(c, t) + ch
  }

  /** The channel and the number of sample `s` of the buffer. */
  function ChannelOf(c: nat, s: nat): nat
    requires c > 0
  {
    s % c
  }

  function TimeOf(c: nat, s: nat): nat
    requires c > 0
  {
    s / c
  }

  /** Every place is that of exactly one sample of one channel: sample `s / c` of channel `s % c`. */
  lemma SlotOf(c: nat, s: nat)
    requires c > 0
    ensures Slot(c, TimeOf(c, s), ChannelOf(c, s)) == s && ChannelOf(c, s) < c
    ensures forall t: nat, ch: nat :: ch < c && Slot(c, t, ch) == s ==> t == TimeOf(c, s) && ch == ChannelOf(c, s)
  {
    MulIs(c, s / c);
    forall t: nat, ch: nat | ch < c && Slot(c, t, ch) == s ensures t == TimeOf(c, s) && ch == ChannelOf(c, s) {
      SlotSplits(c, t, ch);
    }
  }

  /** `out` after the samples of one channel have been written into it, the first at `first`. */
  function Woven(out: seq<int>, first: nat, c: nat, samples: seq<int>): (r: seq<int>)
    requires samples != [] ==> first + Mul(c, |samples| - 1) < |out|
    ensures |r| == |out|
  {
    if samples == [] then out
    else
      var n := |samples| - 1;
      assert n > 0 ==> Mul(c, n - 1) <= Mul(c, n);
      Woven(out, first, c, samples[..n])[first + Mul(c, n) := samples[n]]
  }

  lemma WovenMore(out: seq<int>, first: nat, c: nat, samples: seq<int>, x: int)
    requires first + Mul(c, |samples|) < |out|
    ensures samples != [] ==> first + Mul(c, |samples| - 1) < |out|
    ensures Woven(out, first, c, samples + [x]) == Woven(out, first, c, samples)[first + Mul(c, |samples|) := x]
  {
    assert (samples + [x])[..|samples|] == samples;
  }

  /** What has been written. */
  lemma {:induction false} WovenAt(out: seq<int>, first: nat, c: nat, samples: seq<int>, t: nat, p: nat)
    requires c > 0 && t < |samples| && first + Mul(c, |samples| - 1) < |out| && p == first + Mul(c, t)
    ensures p < |out| && Woven(out, first, c, samples)[p] == samples[t]
  {
    var n := |samples| - 1;
    if t < n {
      MulGrows(c, t, n);
      assert Mul(c, n - 1) <= Mul(c, n);
      WovenAt(out, first, c, samples[..n], t, p);
    }
  }

  /** What has not. */
  lemma {:induction false} WovenElsewhere(out: seq<int>, first: nat, c: nat, samples: seq<int>, p: nat)
    requires samples != [] ==> first + Mul(c, |samples| - 1) < |out|
    requires p < |out| && forall t: nat :: t < |samples| ==> p != first + Mul(c, t)
    ensures Woven(out, first, c, samples)[p] == out[p]
  {
    if samples != [] {
      var n := |samples| - 1;
      assert n > 0 ==> Mul(c, n - 1) <= Mul(c, n);
      WovenElsewhere(out, first, c, samples[..n], p);
    }
  }

  /** One channel alone is written one sample after the other. */
  lemma {:induction false} WovenAlone(out: seq<int>, samples: seq<int>)
    requires |samples| <= |out|
    ensures samples != [] ==> Mul(1, |samples| - 1) < |out|
    ensures Woven(out, 0, 1, samples)[..|samples|] == samples
  {
    if samples != [] {
      var n := |samples| - 1;
      MulIs(1, n);
      WovenAlone(out, samples[..n]);
      assert Woven(out, 0, 1, samples)[..n] == samples[..n];
    }
  }

  lemma SlotsApart(c: nat, i: nat, t0: nat, t': nat, t: nat, ch: nat)
    requires i < c && ch < c && (ch != i || t < t0)
    ensures Slot(c, t, ch) != Slot(c, t0, i) + Mul(c, t')
  {
    MulSum(c, t0, t');
    SlotSplits(c, t, ch);
    SlotSplits(c, t0 + t', i);
  }

  /** Writing on in channel `i` from its sample `t0` on leaves the other samples alone. */
  lemma OthersStay(out: seq<int>, c: nat, i: nat, t0: nat, samples: seq<int>, t: nat, ch: nat)
    requires i < c && ch < c && (ch != i || t < t0) && Slot(c, t, ch) < |out|
    requires samples != [] ==> Slot(c, t0, i) + Mul(c, |samples| - 1) < |out|
    ensures Woven(out, Slot(c, t0, i), c, samples)[Slot(c, t, ch)] == out[Slot(c, t, ch)]
  {
    forall t': nat | t' < |samples| ensures Slot(c, t, ch) != Slot(c, t0, i) + Mul(c, t') {
      SlotsApart(c, i, t0, t', t, ch);
    }
    WovenElsewhere(out, Slot(c, t0, i), c, samples, Slot(c, t, ch));
  }

  lemma Onwards(c: nat, t0: nat, t: nat, i: nat)
    requires t0 <= t
    ensures Slot(c, t, i) == Slot(c, t0, i) + Mul(c, t - t0)
  {
    MulSum(c, t0, t - t0);
  }

  /** The samples written are found in their places. */
  lemma NewOnes(out: seq<int>, c: nat, i: nat, t0: nat, samples: seq<int>, t: nat)
    requires i < c && t0 <= t < t0 + |samples| && Slot(c, t0, i) + Mul(c, |samples| - 1) < |out|
    ensures Slot(c, t, i) < |out| && Woven(out, Slot(c, t0, i), c, samples)[Slot(c, t, i)] == samples[t - t0]
  {
    Onwards(c, t0, t, i);
    WovenAt(out, Slot(c, t0, i), c, samples, t - t0, Slot(c, t, i));
  }
}
