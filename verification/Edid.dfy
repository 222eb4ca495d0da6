/**
  Patching of EDIDs (src/edid.cpp): checksums, rotation of a panel's EDID, the size of the generated one, and the
  replacement of the HDR static metadata in CTA-861 extensions. A buffer is an array of bytes.
*/
module Edid {
  import opened Options

  type Byte = bv8

  const BLOCK_SIZE: nat := 128
  const DESCRIPTOR_COUNT: nat := 4
  const DESCRIPTOR_SIZE: nat := 18
  const CTA_HEADER_SIZE: nat := 4

  // ----- Bits -----

  function Mask(n: bv8): Byte
    requires n <= 8
  {
    if n == 8 then 0xFF else (1 << n) - 1
  }

  function GetBitRange(val: Byte, high: bv8, low: bv8): Byte
    requires low <= high <= 7
  {
    (val >> low) & Mask(high - low + 1)
  }

  function SetBitRange(val: Byte, high: bv8, low: bv8, bits: Byte): Byte
    requires low <= high <= 7 && bits & !Mask(high - low + 1) == 0
  {
    (val & !(Mask(high - low + 1) << low)) | (bits << low)
  }

  /** What is set is read back. */
  lemma SetBitsAreReadBack(val: Byte, high: bv8, low: bv8, bits: Byte)
    requires low <= high <= 7 && bits & !Mask(high - low + 1) == 0
    ensures GetBitRange(SetBitRange(val, high, low, bits), high, low) == bits
  {}

  /** And every single bit outside of the range is left alone. */
  lemma OtherBitsAreKept(val: Byte, high: bv8, low: bv8, bits: Byte, k: bv8)
    requires low <= high <= 7 && bits & !Mask(high - low + 1) == 0
    requires k <= 7 && (k < low || high < k)
    ensures GetBitRange(SetBitRange(val, high, low, bits), k, k) == GetBitRange(val, k, k)
  {}

  // ----- Checksums -----

  /** The sum of the bytes from..to, modulo 256. */
  function Sum(e: seq<Byte>, from: nat, upTo: nat): Byte
    requires from <= upTo <= |e|
    decreases upTo
  {
    if from == upTo then 0 else Sum(e, from, upTo - 1) + e[upTo - 1]
  }

  /** validate_block_checksum. */
  predicate ChecksumValid(e: seq<Byte>, base: nat)
    requires base + BLOCK_SIZE <= |e|
  {
    Sum(e, base, base + BLOCK_SIZE) == 0
  }

  /** patch_edid_checksum. */
  function Checksummed(e: seq<Byte>, base: nat): seq<Byte>
    requires base + BLOCK_SIZE <= |e|
  {
    e[base + 127 := 0 - Sum(e, base, base + 127)]
  }

  method PatchChecksum(e: array<Byte>, base: nat)
    requires base + BLOCK_SIZE <= e.Length
    modifies e
    ensures e[..] == Checksummed(old(e[..]), base)
  {
    var sum: Byte := 0;
    for i := base to base + BLOCK_SIZE - 1
      invariant sum == Sum(e[..], base, i) && e[..] == old(e[..])
    {
      sum := sum + e[i];
    }
    e[base + 127] := 0 - sum;
  }

  method ValidateChecksum(e: array<Byte>, base: nat) returns (valid: bool)
    requires base + BLOCK_SIZE <= e.Length
    ensures valid == ChecksumValid(e[..], base)
  {
    var sum: Byte := 0;
    for i := base to base + BLOCK_SIZE
      invariant sum == Sum(e[..], base, i)
    {
      sum := sum + e[i];
    }
    return sum == 0;
  }

  lemma {:induction false} SumOfSame(e: seq<Byte>, f: seq<Byte>, from: nat, upTo: nat)
    requires from <= upTo <= |e| && |e| == |f| && forall i :: from <= i < upTo ==> e[i] == f[i]
    ensures Sum(e, from, upTo) == Sum(f, from, upTo)
    decreases upTo
  {
    if from < upTo {
      SumOfSame(e, f, from, upTo - 1);
    }
  }

  /** A patched block validates, and patching changes nothing exactly when it did so before. */
  lemma ChecksummedIsValid(e: seq<Byte>, base: nat)
    requires base + BLOCK_SIZE <= |e|
    ensures ChecksumValid(Checksummed(e, base), base)
    ensures Checksummed(e, base) == e <==> ChecksumValid(e, base)
  {
    var f := Checksummed(e, base);
    SumOfSame(f, e, base, base + 127);
    assert Sum(f, base, base + 128) == Sum(f, base, base + 127) + f[base + 127];
    assert Sum(e, base, base + 128) == Sum(e, base, base + 127) + e[base + 127];
    assert f == e <==> f[base + 127] == e[base + 127];
  }

  // ----- The first detailed timing -----

  function DescriptorAt(i: nat): nat {
    0x36 + i * DESCRIPTOR_SIZE
  }

  predicate Active(e: seq<Byte>, i: nat)
    requires i < DESCRIPTOR_COUNT && |e| >= BLOCK_SIZE
  {
    e[DescriptorAt(i)] != 0 || e[DescriptorAt(i) + 1] != 0
  }

  lemma ActiveIs(e: seq<Byte>, i: nat)
    requires i < DESCRIPTOR_COUNT && |e| >= BLOCK_SIZE
    ensures Active(e, i) <==> e[DescriptorAt(i)] != 0 || e[DescriptorAt(i) + 1] != 0
  {}

  /** The first descriptor from i on that holds a timing, or the number of descriptors. */
  function FirstActive(e: seq<Byte>, i: nat): (k: nat)
    requires |e| >= BLOCK_SIZE && i <= DESCRIPTOR_COUNT
    ensures i <= k <= DESCRIPTOR_COUNT
    ensures k < DESCRIPTOR_COUNT ==> Active(e, k)
    ensures forall d: nat :: i <= d < k ==> !Active(e, d)
    decreases DESCRIPTOR_COUNT - i
  {
    if i == DESCRIPTOR_COUNT || Active(e, i) then i else FirstActive(e, i + 1)
  }

  /** The offset of the first detailed timing. */
  function TimingAt(e: seq<Byte>): (d: Option<nat>)
    requires |e| >= BLOCK_SIZE
    ensures d.Some? ==> 0x36 <= d.value <= 108
  {
    var k := FirstActive(e, 0);
    if k < DESCRIPTOR_COUNT then Some(DescriptorAt(k)) else None
  }

  function HighNibble(b: Byte): Byte {
    GetBitRange(b, 7, 4)
  }

  function LowNibble(b: Byte): Byte {
    GetBitRange(b, 3, 0)
  }

  /** A 12-bit value whose upper bits are a nibble. */
  function Twelve(nibble: Byte, low: Byte): bv32 {
    ((nibble as bv32) << 8) | (low as bv32)
  }

  /** The sizes of the timing at offset d, as the source and every decoder of detailed timings read them. */
  function Horizontal(e: seq<Byte>, d: nat): bv32
    requires d + DESCRIPTOR_SIZE <= |e|
  {
    Twelve(HighNibble(e[d + 4]), e[d + 2])
  }

  function Vertical(e: seq<Byte>, d: nat): bv32
    requires d + DESCRIPTOR_SIZE <= |e|
  {
    Twelve(HighNibble(e[d + 7]), e[d + 5])
  }

  function HorizontalBlanking(e: seq<Byte>, d: nat): bv32
    requires d + DESCRIPTOR_SIZE <= |e|
  {
    Twelve(LowNibble(e[d + 4]), e[d + 3])
  }

  function VerticalBlanking(e: seq<Byte>, d: nat): bv32
    requires d + DESCRIPTOR_SIZE <= |e|
  {
    Twelve(LowNibble(e[d + 7]), e[d + 6])
  }

  // ----- Rotation -----

  function Swapped(e: seq<Byte>, i: nat, j: nat): seq<Byte>
    requires i < |e| && j < |e|
  {
    e[i := e[j]][j := e[i]]
  }

  function SwappedTiming(e: seq<Byte>): seq<Byte>
    requires |e| >= BLOCK_SIZE
  {
    match TimingAt(e)
    case None => e
    case Some(d) => Swapped(Swapped(e, d + 4, d + 7), d + 2, d + 5)
  }

  function Rotated(e: seq<Byte>): seq<Byte>
    requires |e| >= BLOCK_SIZE
  {
    Checksummed(SwappedTiming(Swapped(e, 0x15, 0x16)), 0)
  }

  method Swap(e: array<Byte>, i: nat, j: nat)
    requires i < e.Length && j < e.Length
    modifies e
    ensures e[..] == Swapped(old(e[..]), i, j)
  {
    var b := e[i];
    e[i] := e[j];
    e[j] := b;
  }

  /** The bRotate branch of PatchEdid. */
  method Rotate(e: array<Byte>)
    requires e.Length >= BLOCK_SIZE
    modifies e
    ensures e[..] == Rotated(old(e[..]))
  {
    Swap(e, 0x15, 0x16);
    ghost var before := e[..];
    hide Swapped, Checksummed, Active;
    var i := 0;
    while i < DESCRIPTOR_COUNT
      invariant i <= DESCRIPTOR_COUNT && e[..] == before && FirstActive(before, 0) == FirstActive(before, i)
    {
      var d := DescriptorAt(i);
      ActiveIs(before, i);
      if e[d] != 0 || e[d + 1] != 0 {
        Swap(e, d + 4, d + 7);
        Swap(e, d + 2, d + 5);
        break;
      }
      i := i + 1;
    }
    PatchChecksum(e, 0);
  }

  /** Where a rotation takes each byte from; t is the offset of the first timing. */
  function Partner(t: Option<nat>, i: nat): nat {
    if i == 0x15 then 0x16 else if i == 0x16 then 0x15
    else match t
      case None => i
      case Some(d) =>
        if i == d + 4 then d + 7 else if i == d + 7 then d + 4
        else if i == d + 2 then d + 5 else if i == d + 5 then d + 2
        else i
  }

  lemma PartnerIsInvolution(t: Option<nat>, i: nat)
    requires t.Some? ==> 0x36 <= t.value <= 108
    ensures Partner(t, Partner(t, i)) == i && (i < BLOCK_SIZE ==> Partner(t, i) < BLOCK_SIZE)
    ensures Partner(t, i) == 127 <==> i == 127
    ensures i >= BLOCK_SIZE ==> Partner(t, i) == i
  {}

  lemma SwappedAt(e: seq<Byte>, i: nat, j: nat, x: nat)
    requires i < |e| && j < |e| && x < |e|
    ensures |Swapped(e, i, j)| == |e|
    ensures Swapped(e, i, j)[x] == if x == j then e[i] else if x == i then e[j] else e[x]
  {}

  lemma ChecksummedAt(e: seq<Byte>, base: nat, x: nat)
    requires base + BLOCK_SIZE <= |e| && x < |e| && x != base + 127
    ensures |Checksummed(e, base)| == |e| && Checksummed(e, base)[x] == e[x]
  {}

  lemma SwappedTimingAt(e: seq<Byte>, x: nat)
    requires |e| >= BLOCK_SIZE && x < |e|
    ensures |SwappedTiming(e)| == |e|
    ensures var t := TimingAt(e);
            SwappedTiming(e)[x] ==
              match t
              case None => e[x]
              case Some(d) =>
                if x == d + 4 then e[d + 7] else if x == d + 7 then e[d + 4]
                else if x == d + 2 then e[d + 5] else if x == d + 5 then e[d + 2] else e[x]
  {
    hide TimingAt, Swapped;
    match TimingAt(e)
    case None =>
    case Some(d) =>
      var s := Swapped(e, d + 4, d + 7);
      SwappedAt(e, d + 4, d + 7, x);
      SwappedAt(e, d + 4, d + 7, d + 2);
      SwappedAt(e, d + 4, d + 7, d + 5);
      SwappedAt(s, d + 2, d + 5, x);
  }

  lemma RotatedAt(e: seq<Byte>, x: nat)
    requires |e| >= BLOCK_SIZE && x < |e| && x != 127
    ensures |Rotated(e)| == |e| && Partner(TimingAt(e), x) < |e|
    ensures Rotated(e)[x] == e[Partner(TimingAt(e), x)]
  {
    SameActiveSwapped(e);
    PartnerIsInvolution(TimingAt(e), x);
    var p := Partner(TimingAt(e), x);
    var s := Swapped(e, 0x15, 0x16);
    hide TimingAt, SwappedTiming, Swapped, Checksummed;
    SwappedTimingAt(s, x);
    ChecksummedAt(SwappedTiming(s), 0, x);
    SwappedAt(e, 0x15, 0x16, p);
    SwappedAt(e, 0x15, 0x16, x);
  }

  lemma SameActiveSwapped(e: seq<Byte>)
    requires |e| >= BLOCK_SIZE
    ensures |Swapped(e, 0x15, 0x16)| == |e| && TimingAt(Swapped(e, 0x15, 0x16)) == TimingAt(e)
  {
    SameActive(e, Swapped(e, 0x15, 0x16));
  }

  /** The bytes that mark a descriptor as a timing stay where they are. */
  lemma MarksStay(t: Option<nat>, i: nat)
    requires i < DESCRIPTOR_COUNT && t in {None, Some(0x36), Some(0x48), Some(0x5A), Some(0x6C)}
    ensures Partner(t, DescriptorAt(i)) == DescriptorAt(i) && Partner(t, DescriptorAt(i) + 1) == DescriptorAt(i) + 1
    ensures DescriptorAt(i) + 1 < 127
  {}

  lemma TimingOffsets(e: seq<Byte>)
    requires |e| >= BLOCK_SIZE
    ensures TimingAt(e) in {None, Some(0x36), Some(0x48), Some(0x5A), Some(0x6C)}
  {
    var k := FirstActive(e, 0);
    assert k == 0 || k == 1 || k == 2 || k == 3 || k == 4;
  }

  lemma RotatedActive(e: seq<Byte>)
    requires |e| >= BLOCK_SIZE
    ensures |Rotated(e)| == |e| && TimingAt(Rotated(e)) == TimingAt(e)
  {
    TimingOffsets(e);
    RotatedAt(e, 0);
    forall i: nat | i < DESCRIPTOR_COUNT
      ensures DescriptorAt(i) + 1 < 127
      ensures e[DescriptorAt(i)] == Rotated(e)[DescriptorAt(i)]
      ensures e[DescriptorAt(i) + 1] == Rotated(e)[DescriptorAt(i) + 1]
    {
      hide Rotated, TimingAt, DescriptorAt;
      MarksStay(TimingAt(e), i);
      RotatedAt(e, DescriptorAt(i));
      RotatedAt(e, DescriptorAt(i) + 1);
    }
    SameActive(e, Rotated(e));
  }

  lemma SameActive(e: seq<Byte>, f: seq<Byte>)
    requires |e| == |f| >= BLOCK_SIZE
    requires forall i: nat :: i < DESCRIPTOR_COUNT ==>
               e[DescriptorAt(i)] == f[DescriptorAt(i)] && e[DescriptorAt(i) + 1] == f[DescriptorAt(i) + 1]
    ensures TimingAt(e) == TimingAt(f)
  {
    assert forall i: nat :: i < DESCRIPTOR_COUNT ==> (Active(e, i) <==> Active(f, i));
    hide Active;
    var j, k := FirstActive(e, 0), FirstActive(f, 0);
  }

  lemma RotatedTimingBytes(e: seq<Byte>, d: nat)
    requires |e| >= BLOCK_SIZE && TimingAt(e) == Some(d)
    ensures var r := Rotated(e);
            |r| == |e| && r[d + 2] == e[d + 5] && r[d + 4] == e[d + 7] && r[d + 5] == e[d + 2] && r[d + 7] == e[d + 4]
  {
    hide Rotated, TimingAt;
    RotatedAt(e, d + 2);
    RotatedAt(e, d + 4);
    RotatedAt(e, d + 5);
    RotatedAt(e, d + 7);
  }

  lemma RotatedIsValid(e: seq<Byte>)
    requires |e| >= BLOCK_SIZE
    ensures |Rotated(e)| == |e| && ChecksumValid(Rotated(e), 0)
  {
    RotatedActive(e);
    ChecksummedIsValid(SwappedTiming(Swapped(e, 0x15, 0x16)), 0);
  }

  /**
    Rotation swaps the decoded width and height of the first timing and the physical size, and the base block
    validates afterwards.
  */
  lemma RotationSwapsSizes(e: seq<Byte>)
    requires |e| >= BLOCK_SIZE
    ensures var r, t := Rotated(e), TimingAt(e);
            && |r| == |e| && TimingAt(r) == t && ChecksumValid(r, 0)
            && r[0x15] == e[0x16] && r[0x16] == e[0x15]
            && (t.Some? ==>
                  Horizontal(r, t.value) == Vertical(e, t.value) && Vertical(r, t.value) == Horizontal(e, t.value))
  {
    RotatedActive(e);
    RotatedIsValid(e);
    RotatedAt(e, 0x15);
    RotatedAt(e, 0x16);
    hide Rotated, HighNibble, TimingAt, ChecksumValid, Twelve, Partner;
    if TimingAt(e).Some? {
      RotatedTimingBytes(e, TimingAt(e).value);
    }
  }

  /** Rotating twice gives back the EDID exactly when its base block had a valid checksum. */
  lemma RotatingTwiceIff(e: seq<Byte>)
    requires |e| >= BLOCK_SIZE
    ensures Rotated(Rotated(e)) == e <==> ChecksumValid(e, 0)
  {
    var r := Rotated(e);
    RotatedActive(e);
    RotatedActive(r);
    RotatedIsValid(r);
    var t := TimingAt(e);
    hide Rotated, TimingAt, ChecksumValid, Partner;
    forall i: nat | i < |e| && i != 127
      ensures Rotated(r)[i] == e[i]
    {
      RotatedAt(r, i);
      PartnerIsInvolution(t, i);
      RotatedAt(e, Partner(t, i));
    }
    ValidBlocksAgree(Rotated(r), e);
  }

  /** The checksum is the one byte the rest of the block determines. */
  lemma ValidBlocksAgree(e: seq<Byte>, f: seq<Byte>)
    requires |e| == |f| >= BLOCK_SIZE && ChecksumValid(e, 0)
    requires forall i :: 0 <= i < |e| && i != 127 ==> e[i] == f[i]
    ensures e == f <==> ChecksumValid(f, 0)
  {
    SumOfSame(e, f, 0, 127);
    assert Sum(f, 0, 128) == Sum(f, 0, 127) + f[127];
    assert Sum(e, 0, 128) == Sum(e, 0, 127) + e[127];
    if e[127] == f[127] {
      assert e == f;
    }
  }

  /**
    The blanking of the timing is not swapped as a whole: its upper bits share bytes with the upper bits of the
    sizes and move with them, its lower bits stay. It survives exactly when those upper bits are the same.
  */
  lemma RotationKeepsBlankingIff(e: seq<Byte>, d: nat)
    requires |e| >= BLOCK_SIZE && TimingAt(e) == Some(d)
    ensures |Rotated(e)| == |e|
    ensures (HorizontalBlanking(Rotated(e), d) == HorizontalBlanking(e, d) &&
             VerticalBlanking(Rotated(e), d) == VerticalBlanking(e, d)) <==> LowNibble(e[d + 4]) == LowNibble(e[d + 7])
  {
    RotatedActive(e);
    hide Rotated, LowNibble, TimingAt;
    RotatedAt(e, d + 3);
    RotatedAt(e, d + 4);
    RotatedAt(e, d + 6);
    RotatedAt(e, d + 7);
    SameNibble(LowNibble(e[d + 4]), LowNibble(e[d + 7]), e[d + 3]);
    hide Twelve;
  }

  lemma SameNibble(a: Byte, b: Byte, low: Byte)
    ensures Twelve(a, low) == Twelve(b, low) <==> a == b
  {}
}
