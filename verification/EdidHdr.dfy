/**
  The HDR part of PatchEdid (src/edid.cpp): the walk over the data blocks of the CTA-861 extensions (section 7.5 of
  CTA-861-G) that puts new values into an HDR static metadata data block where there is one. The walk is modelled
  as it is, also where a block is empty or the timings start beyond the extension, as long as it stays within the
  buffer.
*/
module EdidHdr {
  import opened Edid

  const CTA_TAG: Byte := 0x02
  const EXTENDED_TAG: Byte := 7
  const HDR_STATIC_TAG: Byte := 6
  const PAYLOAD_SIZE: nat := 5

  type Payload = p: seq<Byte> | |p| == PAYLOAD_SIZE witness [0, 0, 0, 0, 0]

  function BlockSize(header: Byte): (n: nat)
    ensures n < 32
  {
    SmallSize(header);
    GetBitRange(header, 4, 0) as nat
  }

  lemma SmallSize(header: Byte)
    ensures GetBitRange(header, 4, 0) < 32
  {}

  predicate Extended(header: Byte) {
    GetBitRange(header, 7, 5) == EXTENDED_TAG
  }

  /** data_block_size - 1 in 8 bits: 255 for an empty block. */
  function ExtendedSize(size: nat): nat
    requires size < 32
  {
    if size == 0 then 255 else size - 1
  }

  /** The extension at `base` of a buffer that holds its data blocks, which end at `dtd`. */
  predicate Extension(e: seq<Byte>, base: nat, dtd: nat) {
    base + dtd < |e|
  }

  /** A data block lies at j and ends before the timings. */
  predicate BlockAt(e: seq<Byte>, base: nat, j: nat, dtd: nat)
    requires Extension(e, base, dtd)
  {
    j < dtd && j + 1 + BlockSize(e[base + j]) <= dtd
  }

  function Next(e: seq<Byte>, base: nat, j: nat, dtd: nat): nat
    requires Extension(e, base, dtd) && BlockAt(e, base, j, dtd)
  {
    j + 1 + BlockSize(e[base + j])
  }

  /** The block at j is one whose metadata is replaced. */
  predicate HdrAt(e: seq<Byte>, base: nat, j: nat, dtd: nat)
    requires Extension(e, base, dtd) && BlockAt(e, base, j, dtd)
  {
    Extended(e[base + j]) && e[base + j + 1] == HDR_STATIC_TAG && ExtendedSize(BlockSize(e[base + j])) >= PAYLOAD_SIZE
  }

  /** The offsets of the data blocks from j on; the walk ends at the timings or at a block that reaches into them. */
  function Blocks(e: seq<Byte>, base: nat, j: nat, dtd: nat): seq<nat>
    requires Extension(e, base, dtd)
    decreases dtd - j
  {
    if BlockAt(e, base, j, dtd) then [j] + Blocks(e, base, Next(e, base, j, dtd), dtd) else []
  }

  /** Where the walk ends. */
  function End(e: seq<Byte>, base: nat, j: nat, dtd: nat): nat
    requires Extension(e, base, dtd)
    decreases dtd - j
  {
    if BlockAt(e, base, j, dtd) then End(e, base, Next(e, base, j, dtd), dtd) else j
  }

  /** The size is in the lower five bits of a header, the tag in the upper three. */
  lemma HeaderBits(header: Byte)
    ensures BlockSize(header) == (header & 0x1F) as nat
    ensures Extended(header) <==> header & 0xE0 == 0xE0
  {
    SizeBits(header);
    TagBits(header);
  }

  lemma SizeBits(header: Byte)
    ensures GetBitRange(header, 4, 0) == header & 0x1F
  {}

  lemma TagBits(header: Byte)
    ensures GetBitRange(header, 7, 5) == 7 <==> header & 0xE0 == 0xE0
  {}

  /** Metadata is replaced in extended blocks with tag 6 that hold at least five bytes, or none at all. */
  lemma HdrIff(e: seq<Byte>, base: nat, j: nat, dtd: nat)
    requires Extension(e, base, dtd) && BlockAt(e, base, j, dtd)
    ensures HdrAt(e, base, j, dtd) <==>
            var size := (e[base + j] & 0x1F) as nat;
            e[base + j] & 0xE0 == 0xE0 && e[base + j + 1] == 6 && (size == 0 || size >= 6)
  {
    HeaderBits(e[base + j]);
    hide BlockSize, Extended;
  }

  /** The size of the block at an offset, from its header. */
  ghost function SizeAt(e: seq<Byte>, base: nat, k: nat): nat
    requires base + k < |e|
  {
    (e[base + k] & 0x1F) as nat
  }

  /** The walk starts at j, goes from each block to the byte behind it, and stops where the next one does not fit. */
  lemma {:induction false} BlocksAreChained(e: seq<Byte>, base: nat, j: nat, dtd: nat)
    requires Extension(e, base, dtd)
    ensures var bs, end := Blocks(e, base, j, dtd), End(e, base, j, dtd);
            && (forall i :: 0 <= i < |bs| ==> bs[i] < dtd && bs[i] + 1 + SizeAt(e, base, bs[i]) <= dtd)
            && (forall i, k :: 0 <= i < k < |bs| && k == i + 1 ==> bs[k] == bs[i] + 1 + SizeAt(e, base, bs[i]))
            && (bs != [] ==> bs[0] == j)
            && end == (if bs == [] then j else bs[|bs| - 1] + 1 + SizeAt(e, base, bs[|bs| - 1]))
            && (end < dtd ==> end + 1 + SizeAt(e, base, end) > dtd)
    decreases dtd - j
  {
    BlockHas(e, base, j, dtd);
    hide BlockSize, SizeAt, BlockAt;
    if BlockAt(e, base, j, dtd) {
      var n := Next(e, base, j, dtd);
      var bs, rest := Blocks(e, base, j, dtd), Blocks(e, base, n, dtd);
      BlocksAreChained(e, base, n, dtd);
      assert bs == [j] + rest;
      assert forall i :: 0 < i < |bs| ==> bs[i] == rest[i - 1];
    }
  }

  lemma BlockHas(e: seq<Byte>, base: nat, j: nat, dtd: nat)
    requires Extension(e, base, dtd)
    ensures BlockAt(e, base, j, dtd) <==> j < dtd && j + 1 + SizeAt(e, base, j) <= dtd
    ensures BlockAt(e, base, j, dtd) ==> Next(e, base, j, dtd) == j + 1 + SizeAt(e, base, j)
  {
    if j < dtd {
      HeaderBits(e[base + j]);
      hide BlockSize;
    }
  }

  /** Whatever metadata is replaced from j on ends at `limit`. */
  predicate FitsBelow(e: seq<Byte>, base: nat, j: nat, dtd: nat, limit: nat)
    requires Extension(e, base, dtd)
    decreases dtd - j
  {
    BlockAt(e, base, j, dtd) ==>
      && (HdrAt(e, base, j, dtd) ==> base + j + 2 + PAYLOAD_SIZE <= limit)
      && FitsBelow(e, base, Next(e, base, j, dtd), dtd, limit)
  }

  /** No extended block is so empty that its tag is the first byte of the timings. */
  predicate TagsInside(e: seq<Byte>, base: nat, j: nat, dtd: nat)
    requires Extension(e, base, dtd)
    decreases dtd - j
  {
    BlockAt(e, base, j, dtd) ==>
      && (Extended(e[base + j]) ==> j + 1 < dtd)
      && TagsInside(e, base, Next(e, base, j, dtd), dtd)
  }

  /** All the walk looks at and writes lies before the timings. */
  predicate Confined(e: seq<Byte>, base: nat, j: nat, dtd: nat)
    requires Extension(e, base, dtd)
  {
    TagsInside(e, base, j, dtd) && FitsBelow(e, base, j, dtd, base + dtd)
  }

  lemma {:induction false} FitsBelowMore(e: seq<Byte>, base: nat, j: nat, dtd: nat, limit: nat, more: nat)
    requires Extension(e, base, dtd) && FitsBelow(e, base, j, dtd, limit) && limit <= more
    ensures FitsBelow(e, base, j, dtd, more)
    decreases dtd - j
  {
    hide Extended, BlockSize;
    if BlockAt(e, base, j, dtd) {
      FitsBelowMore(e, base, Next(e, base, j, dtd), dtd, limit, more);
    }
  }

  /** The metadata lies inside of its block exactly when the block is not empty. */
  lemma MetadataFitsIff(e: seq<Byte>, base: nat, j: nat, dtd: nat)
    requires Extension(e, base, dtd) && BlockAt(e, base, j, dtd) && HdrAt(e, base, j, dtd)
    ensures j + 2 + PAYLOAD_SIZE <= Next(e, base, j, dtd) <==> BlockSize(e[base + j]) > 0
  {}

  /** memcpy of the metadata. */
  function Overwritten(e: seq<Byte>, at: nat, payload: Payload): (r: seq<Byte>)
    requires at + PAYLOAD_SIZE <= |e|
    ensures |r| == |e|
    ensures forall x: nat :: x < |e| ==> r[x] == if at <= x < at + PAYLOAD_SIZE then payload[x - at] else e[x]
  {
    e[..at] + payload + e[at + PAYLOAD_SIZE..]
  }

  /** One turn of the walk. */
  function Patched(e: seq<Byte>, base: nat, j: nat, dtd: nat, payload: Payload): (r: seq<Byte>)
    requires Extension(e, base, dtd) && BlockAt(e, base, j, dtd)
    requires HdrAt(e, base, j, dtd) ==> base + j + 2 + PAYLOAD_SIZE <= |e|
    ensures |r| == |e|
  {
    if HdrAt(e, base, j, dtd) then Overwritten(e, base + j + 2, payload) else e
  }

  function Walk(e: seq<Byte>, base: nat, j: nat, dtd: nat, payload: Payload): (r: seq<Byte>)
    requires Extension(e, base, dtd) && FitsBelow(e, base, j, dtd, |e|)
    ensures |r| == |e|
    decreases dtd - j
  {
    if BlockAt(e, base, j, dtd) then
      PatchedWalksOn(e, base, j, dtd, payload);
      Walk(Patched(e, base, j, dtd, payload), base, Next(e, base, j, dtd), dtd, payload)
    else e
  }

  /** has_hdr_metadata_block: whether the walk meets a block whose metadata it replaces. */
  predicate Finds(e: seq<Byte>, base: nat, j: nat, dtd: nat)
    requires Extension(e, base, dtd)
    decreases dtd - j
  {
    BlockAt(e, base, j, dtd) && (HdrAt(e, base, j, dtd) || Finds(e, base, Next(e, base, j, dtd), dtd))
  }

  /** It does exactly when one of the blocks is of that kind. */
  lemma {:induction false} FindsIff(e: seq<Byte>, base: nat, j: nat, dtd: nat)
    requires Extension(e, base, dtd)
    ensures Finds(e, base, j, dtd) <==>
            exists k :: k in Blocks(e, base, j, dtd) && BlockAt(e, base, k, dtd) && HdrAt(e, base, k, dtd)
    decreases dtd - j
  {
    hide Extended, BlockSize, HdrAt;
    if BlockAt(e, base, j, dtd) {
      var n := Next(e, base, j, dtd);
      FindsIff(e, base, n, dtd);
      assert Blocks(e, base, j, dtd) == [j] + Blocks(e, base, n, dtd);
      assert j in Blocks(e, base, j, dtd);
      assert forall k :: k in Blocks(e, base, n, dtd) ==> k in Blocks(e, base, j, dtd);
      hide BlockAt;
    }
  }

  /** Byte x is part of the metadata the walk from j replaces. */
  predicate InMetadata(e: seq<Byte>, base: nat, j: nat, dtd: nat, x: nat)
    requires Extension(e, base, dtd)
    decreases dtd - j
  {
    BlockAt(e, base, j, dtd) &&
    ((HdrAt(e, base, j, dtd) && base + j + 2 <= x < base + j + 2 + PAYLOAD_SIZE)
     || InMetadata(e, base, Next(e, base, j, dtd), dtd, x))
  }

  // ----- Buffers the walk cannot tell apart -----

  /** From j on the walk goes the same way over both. */
  ghost predicate SameWalk(e: seq<Byte>, f: seq<Byte>, base: nat, j: nat, dtd: nat)
    requires Extension(e, base, dtd) && Extension(f, base, dtd)
  {
    && Blocks(e, base, j, dtd) == Blocks(f, base, j, dtd) && End(e, base, j, dtd) == End(f, base, j, dtd)
    && (TagsInside(e, base, j, dtd) <==> TagsInside(f, base, j, dtd))
    && (Finds(e, base, j, dtd) <==> Finds(f, base, j, dtd))
    && (forall limit: nat :: FitsBelow(e, base, j, dtd, limit) <==> FitsBelow(f, base, j, dtd, limit))
    && (forall x: nat :: InMetadata(e, base, j, dtd, x) <==> InMetadata(f, base, j, dtd, x))
  }

  /** Blocks with the same header and tag are the same step of the walk. */
  lemma SameStep(e: seq<Byte>, f: seq<Byte>, base: nat, j: nat, dtd: nat)
    requires Extension(e, base, dtd) && Extension(f, base, dtd)
    requires j < dtd ==> e[base + j] == f[base + j]
    requires BlockAt(e, base, j, dtd) ==> (HdrAt(e, base, j, dtd) <==> HdrAt(f, base, j, dtd))
    requires BlockAt(e, base, j, dtd) ==> SameWalk(e, f, base, Next(e, base, j, dtd), dtd)
    ensures SameWalk(e, f, base, j, dtd)
  {
    hide Extended, BlockSize, HdrAt;
    assert BlockAt(e, base, j, dtd) <==> BlockAt(f, base, j, dtd);
    assert TagsInside(e, base, j, dtd) <==> TagsInside(f, base, j, dtd);
    forall limit: nat
      ensures FitsBelow(e, base, j, dtd, limit) <==> FitsBelow(f, base, j, dtd, limit)
    {}
    forall x: nat
      ensures InMetadata(e, base, j, dtd, x) <==> InMetadata(f, base, j, dtd, x)
    {}
  }

  ghost predicate SameFrom(e: seq<Byte>, f: seq<Byte>, base: nat, j: nat, dtd: nat)
    requires Extension(e, base, dtd) && |e| == |f|
  {
    forall x: nat :: base + j <= x < base + dtd ==> e[x] == f[x]
  }

  /** The walk only depends on what lies ahead of it, and on the first byte of the timings for an empty block. */
  lemma {:induction false} SameRest(e: seq<Byte>, f: seq<Byte>, base: nat, j: nat, dtd: nat)
    requires Extension(e, base, dtd) && |e| == |f| && SameFrom(e, f, base, j, dtd)
    requires e[base + dtd] == f[base + dtd] || TagsInside(e, base, j, dtd)
    ensures SameWalk(e, f, base, j, dtd)
    decreases dtd - j
  {
    hide Extended, BlockSize, SameWalk;
    if j < dtd {
      assert e[base + j] == f[base + j];
      if BlockAt(e, base, j, dtd) {
        assert j + 1 < dtd ==> e[base + j + 1] == f[base + j + 1];
        SameRest(e, f, base, Next(e, base, j, dtd), dtd);
      }
    }
    SameStep(e, f, base, j, dtd);
  }

  lemma SameWalkTransitive(e: seq<Byte>, f: seq<Byte>, g: seq<Byte>, base: nat, j: nat, dtd: nat)
    requires Extension(e, base, dtd) && Extension(f, base, dtd) && Extension(g, base, dtd)
    requires SameWalk(e, f, base, j, dtd) && SameWalk(f, g, base, j, dtd)
    ensures SameWalk(e, g, base, j, dtd)
  {
    hide Blocks, End, TagsInside, Finds, FitsBelow, InMetadata;
  }

  /** The tag of HDR static metadata, read as a header, is that of a plain block of six bytes. */
  lemma TagIsPlainHeader()
    ensures !Extended(HDR_STATIC_TAG) && BlockSize(HDR_STATIC_TAG) == PAYLOAD_SIZE + 1
  {}

  /**
    Replacing metadata does not lead the walk astray. Even in an empty block: its tag is the header of the next
    block, and the bytes written lie inside of that one, or the walk ends there.
  */
  lemma PatchedWalksOn(e: seq<Byte>, base: nat, j: nat, dtd: nat, payload: Payload)
    requires Extension(e, base, dtd) && BlockAt(e, base, j, dtd)
    requires HdrAt(e, base, j, dtd) ==> base + j + 2 + PAYLOAD_SIZE <= |e|
    ensures SameWalk(Patched(e, base, j, dtd, payload), e, base, Next(e, base, j, dtd), dtd)
  {
    hide Extended, BlockSize, SameWalk;
    var p, n := Patched(e, base, j, dtd, payload), Next(e, base, j, dtd);
    TagIsPlainHeader();
    if !HdrAt(e, base, j, dtd) || BlockSize(e[base + j]) > 0 {
      SameRest(p, e, base, n, dtd);
    } else {
      if BlockAt(e, base, n, dtd) {
        SameRest(p, e, base, Next(e, base, n, dtd), dtd);
      }
      SameStep(p, e, base, n, dtd);
    }
  }

  // ----- What the walk changes -----

  lemma {:induction false} MetadataLiesAhead(e: seq<Byte>, base: nat, j: nat, dtd: nat, x: nat)
    requires Extension(e, base, dtd) && InMetadata(e, base, j, dtd, x)
    ensures base + j + 2 <= x
    ensures forall limit: nat :: FitsBelow(e, base, j, dtd, limit) ==> x < limit
    decreases dtd - j
  {
    hide Extended, BlockSize;
    if !(HdrAt(e, base, j, dtd) && base + j + 2 <= x < base + j + 2 + PAYLOAD_SIZE) {
      MetadataLiesAhead(e, base, Next(e, base, j, dtd), dtd, x);
    }
  }

  /** Only metadata bytes change. */
  lemma {:induction false} WalkChangesMetadataOnly(e: seq<Byte>, base: nat, j: nat, dtd: nat, payload: Payload, x: nat)
    requires Extension(e, base, dtd) && FitsBelow(e, base, j, dtd, |e|) && x < |e|
    ensures Walk(e, base, j, dtd, payload)[x] != e[x] ==> InMetadata(e, base, j, dtd, x)
    decreases dtd - j
  {
    hide Extended, BlockSize;
    if BlockAt(e, base, j, dtd) {
      PatchedWalksOn(e, base, j, dtd, payload);
      WalkChangesMetadataOnly(Patched(e, base, j, dtd, payload), base, Next(e, base, j, dtd), dtd, payload, x);
    }
  }

  /** What the rest of the walk changes lies past the header and the tag of the block at j, and past its metadata. */
  lemma RestLeavesBlock(e: seq<Byte>, base: nat, j: nat, dtd: nat, payload: Payload, x: nat)
    requires Extension(e, base, dtd) && FitsBelow(e, base, j, dtd, |e|) && BlockAt(e, base, j, dtd)
    requires x <= base + j + 1 || (HdrAt(e, base, j, dtd) && x < base + j + 2 + PAYLOAD_SIZE)
    ensures x < |e| && Walk(e, base, j, dtd, payload)[x] == Patched(e, base, j, dtd, payload)[x]
  {
    var p, n := Patched(e, base, j, dtd, payload), Next(e, base, j, dtd);
    PatchedWalksOn(e, base, j, dtd, payload);
    TagIsPlainHeader();
    WalkChangesMetadataOnly(p, base, n, dtd, payload, x);
    hide Extended;
    if InMetadata(e, base, n, dtd, x) {
      MetadataLiesAhead(e, base, n, dtd, x);
      if BlockSize(e[base + j]) == 0 && HdrAt(e, base, j, dtd) {
        MetadataLiesAhead(e, base, Next(e, base, n, dtd), dtd, x);
      }
    }
  }

  /** The walk over the result goes the same way. */
  lemma {:induction false} WalkKeepsBlocks(e: seq<Byte>, base: nat, j: nat, dtd: nat, payload: Payload)
    requires Extension(e, base, dtd) && FitsBelow(e, base, j, dtd, |e|)
    ensures SameWalk(Walk(e, base, j, dtd, payload), e, base, j, dtd)
    decreases dtd - j
  {
    hide Extended, BlockSize;
    var w := Walk(e, base, j, dtd, payload);
    if BlockAt(e, base, j, dtd) {
      var p, n := Patched(e, base, j, dtd, payload), Next(e, base, j, dtd);
      PatchedWalksOn(e, base, j, dtd, payload);
      RestLeavesBlock(e, base, j, dtd, payload, base + j);
      RestLeavesBlock(e, base, j, dtd, payload, base + j + 1);
      assert FitsBelow(p, base, n, dtd, |p|) && w == Walk(p, base, n, dtd, payload);
      hide SameWalk, Walk, FitsBelow, ExtendedSize;
      WalkKeepsBlocks(p, base, n, dtd, payload);
      SameWalkTransitive(w, p, e, base, n, dtd);
      assert HdrAt(w, base, j, dtd) <==> HdrAt(e, base, j, dtd);
      SameStep(w, e, base, j, dtd);
    }
  }

  lemma WalkFitsAlike(e: seq<Byte>, base: nat, j: nat, dtd: nat, payload: Payload, limit: nat)
    requires Extension(e, base, dtd) && FitsBelow(e, base, j, dtd, |e|)
    ensures FitsBelow(Walk(e, base, j, dtd, payload), base, j, dtd, limit) <==> FitsBelow(e, base, j, dtd, limit)
  {
    WalkKeepsBlocks(e, base, j, dtd, payload);
    hide Walk, FitsBelow, Blocks, Finds, InMetadata, TagsInside, End;
  }

  /** Every block with HDR static metadata ends up with the new values. */
  predicate AllReplaced(e: seq<Byte>, base: nat, j: nat, dtd: nat, payload: Payload)
    requires Extension(e, base, dtd) && FitsBelow(e, base, j, dtd, |e|)
    decreases dtd - j
  {
    BlockAt(e, base, j, dtd) ==>
      && (HdrAt(e, base, j, dtd) ==> e[base + j + 2..base + j + 2 + PAYLOAD_SIZE] == payload)
      && AllReplaced(e, base, Next(e, base, j, dtd), dtd, payload)
  }

  lemma MetadataSurvives(e: seq<Byte>, base: nat, j: nat, dtd: nat, payload: Payload)
    requires Extension(e, base, dtd) && FitsBelow(e, base, j, dtd, |e|) && BlockAt(e, base, j, dtd)
    requires HdrAt(e, base, j, dtd)
    ensures Walk(e, base, j, dtd, payload)[base + j + 2..base + j + 2 + PAYLOAD_SIZE] == payload
  {
    var p, w := Patched(e, base, j, dtd, payload), Walk(e, base, j, dtd, payload);
    forall i: nat | i < PAYLOAD_SIZE
      ensures w[base + j + 2 + i] == payload[i]
    {
      hide Walk, FitsBelow, BlockSize, Extended;
      assert p[base + j + 2 + i] == payload[i];
      RestLeavesBlock(e, base, j, dtd, payload, base + j + 2 + i);
    }
  }

  /** The block at j is the same block after the whole walk. */
  lemma BlockSurvives(e: seq<Byte>, base: nat, j: nat, dtd: nat, payload: Payload)
    requires Extension(e, base, dtd) && FitsBelow(e, base, j, dtd, |e|) && BlockAt(e, base, j, dtd)
    ensures var w := Walk(e, base, j, dtd, payload);
            && BlockAt(w, base, j, dtd) && Next(w, base, j, dtd) == Next(e, base, j, dtd)
            && (HdrAt(w, base, j, dtd) <==> HdrAt(e, base, j, dtd))
  {
    hide Walk, FitsBelow, BlockSize, Extended, ExtendedSize;
    RestLeavesBlock(e, base, j, dtd, payload, base + j);
    RestLeavesBlock(e, base, j, dtd, payload, base + j + 1);
  }

  lemma {:induction false} WalkReplacesAll(e: seq<Byte>, base: nat, j: nat, dtd: nat, payload: Payload)
    requires Extension(e, base, dtd) && FitsBelow(e, base, j, dtd, |e|)
    ensures var w := Walk(e, base, j, dtd, payload);
            FitsBelow(w, base, j, dtd, |w|) && AllReplaced(w, base, j, dtd, payload)
    decreases dtd - j
  {
    WalkFitsAlike(e, base, j, dtd, payload, |e|);
    hide Extended, BlockSize, ExtendedSize;
    if BlockAt(e, base, j, dtd) {
      BlockSurvives(e, base, j, dtd, payload);
      PatchedWalksOn(e, base, j, dtd, payload);
      WalkReplacesAll(Patched(e, base, j, dtd, payload), base, Next(e, base, j, dtd), dtd, payload);
      hide SameWalk;
      if HdrAt(e, base, j, dtd) {
        MetadataSurvives(e, base, j, dtd, payload);
      }
    }
  }

  // ----- When the timings are safe -----

  ghost predicate KeepsTimings(e: seq<Byte>, base: nat, j: nat, dtd: nat, payload: Payload)
    requires Extension(e, base, dtd) && FitsBelow(e, base, j, dtd, |e|)
  {
    forall x: nat :: base + dtd <= x < |e| ==> Walk(e, base, j, dtd, payload)[x] == e[x]
  }

  /** What the walk changes past the timings is metadata that does not fit. */
  lemma FittingKeepsTimings(e: seq<Byte>, base: nat, j: nat, dtd: nat, payload: Payload, limit: nat, x: nat)
    requires Extension(e, base, dtd) && FitsBelow(e, base, j, dtd, |e|) && FitsBelow(e, base, j, dtd, limit)
    requires limit <= x < |e|
    ensures Walk(e, base, j, dtd, payload)[x] == e[x]
  {
    WalkChangesMetadataOnly(e, base, j, dtd, payload, x);
    if InMetadata(e, base, j, dtd, x) {
      MetadataLiesAhead(e, base, j, dtd, x);
    }
  }

  /** Where metadata does not fit there is a block whose metadata reaches over the limit. */
  lemma {:induction false} SpillingBlock(e: seq<Byte>, base: nat, j: nat, dtd: nat, limit: nat) returns (k: nat)
    requires Extension(e, base, dtd) && !FitsBelow(e, base, j, dtd, limit)
    ensures k in Blocks(e, base, j, dtd) && BlockAt(e, base, k, dtd) && HdrAt(e, base, k, dtd)
    ensures base + k + 2 + PAYLOAD_SIZE > limit
    decreases dtd - j
  {
    hide Extended, BlockSize;
    if HdrAt(e, base, j, dtd) && base + j + 2 + PAYLOAD_SIZE > limit {
      k := j;
    } else {
      k := SpillingBlock(e, base, Next(e, base, j, dtd), dtd, limit);
    }
  }

  lemma {:induction false} BlockIsReplaced(
    e: seq<Byte>, base: nat, j: nat, dtd: nat, payload: Payload, limit: nat, k: nat, i: nat)
    requires Extension(e, base, dtd) && FitsBelow(e, base, j, dtd, |e|) && FitsBelow(e, base, j, dtd, limit)
    requires AllReplaced(e, base, j, dtd, payload) && i < PAYLOAD_SIZE
    requires k in Blocks(e, base, j, dtd) && BlockAt(e, base, k, dtd) && HdrAt(e, base, k, dtd)
    ensures base + k + 2 + PAYLOAD_SIZE <= |e| && base + k + 2 + PAYLOAD_SIZE <= limit
    ensures e[base + k + 2 + i] == payload[i]
    decreases dtd - j
  {
    hide Extended, BlockSize;
    if k == j {
      assert e[base + k + 2 + i] == e[base + k + 2..base + k + 2 + PAYLOAD_SIZE][i];
    } else {
      BlockIsReplaced(e, base, Next(e, base, j, dtd), dtd, payload, limit, k, i);
    }
  }

  /** The end of all metadata, where it does not fit below a limit. */
  lemma {:induction false} EndOfMetadata(e: seq<Byte>, base: nat, j: nat, dtd: nat, limit: nat) returns (end: nat)
    requires Extension(e, base, dtd) && FitsBelow(e, base, j, dtd, |e|) && !FitsBelow(e, base, j, dtd, limit)
    ensures limit < end && FitsBelow(e, base, j, dtd, end) && !FitsBelow(e, base, j, dtd, end - 1)
    decreases |e| - limit
  {
    if |e| <= limit {
      FitsBelowMore(e, base, j, dtd, |e|, limit);
    }
    end := limit + 1;
    if !FitsBelow(e, base, j, dtd, end) {
      end := EndOfMetadata(e, base, j, dtd, end);
    }
  }

  /** The last bytes the walk writes, up to the end of all metadata, are the payload. */
  lemma LastMetadata(e: seq<Byte>, base: nat, j: nat, dtd: nat, payload: Payload, end: nat, i: nat)
    requires Extension(e, base, dtd) && FitsBelow(e, base, j, dtd, |e|) && i < PAYLOAD_SIZE
    requires 0 < end && FitsBelow(e, base, j, dtd, end) && !FitsBelow(e, base, j, dtd, end - 1)
    ensures PAYLOAD_SIZE <= end <= |e| && Walk(e, base, j, dtd, payload)[end - PAYLOAD_SIZE + i] == payload[i]
  {
    hide Walk, FitsBelow, AllReplaced, Blocks, SameWalk, Extended, BlockSize, HdrAt, BlockAt;
    var w := Walk(e, base, j, dtd, payload);
    WalkReplacesAll(e, base, j, dtd, payload);
    WalkFitsAlike(e, base, j, dtd, payload, end);
    WalkFitsAlike(e, base, j, dtd, payload, end - 1);
    var k := SpillingBlock(w, base, j, dtd, end - 1);
    BlockIsReplaced(w, base, j, dtd, payload, end, k, i);
  }
}
