/** Single bits of the byte masks that the mixer cache and the mixer daemon keep:
    `mask[k / 8] |= 1 << (k % 8)`, its clearing twin and the test. */
module ChangeMask {

  /** The byte with only bit `k` set, `1 << k`. */
  function Bit(k: nat): bv8
    requires k < 8
  {
    if k == 0 then 1 else if k == 1 then 2 else if k == 2 then 4 else if k == 3 then 8
    else if k == 4 then 16 else if k == 5 then 32 else if k == 6 then 64 else 128
  }

  predicate Test(b: bv8, k: nat)
    requires k < 8
  {
    b & Bit(k) != 0
  }

  lemma SetTest(b: bv8, i: nat, j: nat)
    requires i < 8 && j < 8
    ensures Test(b | Bit(i), j) <==> (i == j || Test(b, j))
  {
  }

  lemma ClearTest(b: bv8, i: nat, j: nat)
    requires i < 8 && j < 8
    ensures Test(b & !Bit(i), j) <==> (i != j && Test(b, j))
  {
  }

  /** The mask read as one Boolean per position. */
  function Flags(mask: seq<bv8>): (flags: seq<bool>)
    ensures |flags| == 8 * |mask|
  {
    seq(8 * |mask|, i requires 0 <= i < 8 * |mask| => Test(mask[i / 8], i % 8))
  }

  /** Setting one bit in place changes that position and no other. */
  lemma SetFlag(mask: seq<bv8>, k: nat)
    requires k < 8 * |mask|
    ensures Flags(mask[k / 8 := mask[k / 8] | Bit(k % 8)]) == Flags(mask)[k := true]
  {
    var after := mask[k / 8 := mask[k / 8] | Bit(k % 8)];
    forall i | 0 <= i < 8 * |mask|
      ensures Flags(after)[i] == Flags(mask)[k := true][i]
    {
      if i / 8 == k / 8 {
        SetTest(mask[k / 8], k % 8, i % 8);
      }
    }
  }

  /** Clearing one bit in place changes that position and no other. */
  lemma ClearFlag(mask: seq<bv8>, k: nat)
    requires k < 8 * |mask|
    ensures Flags(mask[k / 8 := mask[k / 8] & !Bit(k % 8)]) == Flags(mask)[k := false]
  {
    var after := mask[k / 8 := mask[k / 8] & !Bit(k % 8)];
    forall i | 0 <= i < 8 * |mask|
      ensures Flags(after)[i] == Flags(mask)[k := false][i]
    {
      if i / 8 == k / 8 {
        ClearTest(mask[k / 8], k % 8, i % 8);
      }
    }
  }

  /** The statements that set and clear a bit. */
  method SetBit(mask: array<bv8>, k: nat)
    requires k < 8 * mask.Length
    modifies mask
    ensures Flags(mask[..]) == Flags(old(mask[..]))[k := true]
  {
    SetFlag(mask[..], k);
    mask[k / 8] := mask[k / 8] | Bit(k % 8);
  }

  method ClearBit(mask: array<bv8>, k: nat)
    requires k < 8 * mask.Length
    modifies mask
    ensures Flags(mask[..]) == Flags(old(mask[..]))[k := false]
  {
    ClearFlag(mask[..], k);
    mask[k / 8] := mask[k / 8] & !Bit(k % 8);
  }
}
