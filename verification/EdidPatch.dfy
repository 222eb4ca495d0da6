/** PatchEdid and GenerateSimpleEdid of src/edid.cpp as a whole, over all extension blocks of a buffer. */
module EdidPatch {
  import opened Edid
  import opened EdidHdr
  import opened Options

  function DtdStart(e: seq<Byte>, base: nat): nat
    requires base + BLOCK_SIZE <= |e|
  {
    e[base + 2] as nat
  }

  /** A CTA extension PatchEdid goes into: it has data blocks and no flags. */
  predicate Walkable(e: seq<Byte>, base: nat)
    requires base + BLOCK_SIZE <= |e|
  {
    e[base] == CTA_TAG && e[base + 2] != 0 && e[base + 3] == 0
  }

  /** The walk stays inside of the buffer. */
  predicate InReach(e: seq<Byte>, base: nat)
    requires base + BLOCK_SIZE <= |e|
  {
    Walkable(e, base) ==>
      && Extension(e, base, DtdStart(e, base))
      && FitsBelow(e, base, CTA_HEADER_SIZE, DtdStart(e, base), |e|)
  }

  /** The timings start inside of the extension, and the walk stays ahead of them. */
  predicate Sound(e: seq<Byte>, base: nat)
    requires base + BLOCK_SIZE <= |e|
  {
    Walkable(e, base) ==> DtdStart(e, base) <= 127 && Confined(e, base, CTA_HEADER_SIZE, DtdStart(e, base))
  }

  lemma SoundIsInReach(e: seq<Byte>, base: nat)
    requires base + BLOCK_SIZE <= |e| && Sound(e, base)
    ensures InReach(e, base)
  {
    if Walkable(e, base) {
      var dtd := DtdStart(e, base);
      FitsBelowMore(e, base, CTA_HEADER_SIZE, dtd, base + dtd, |e|);
    }
  }

  /**
    What the body of the loop over the extensions comes to: the buffer, and whether an HDR block has been met so far.
    `Inserts` stands for going on to insert a new block; outside of the buffer the original's behaviour is undefined.
  */
  datatype Step = Done(e: seq<Byte>, found: bool) | Inserts | OutOfBuffer

  function PatchExtension(e: seq<Byte>, base: nat, found: bool, payload: Payload): (r: Step)
    requires base + BLOCK_SIZE <= |e|
    ensures r.Done? ==> |r.e| == |e|
  {
    if !Walkable(e, base) then Done(e, found)
    else if !InReach(e, base) then OutOfBuffer
    else
      var dtd := DtdStart(e, base);
      var w := Walk(e, base, CTA_HEADER_SIZE, dtd, payload);
      if found || Finds(e, base, CTA_HEADER_SIZE, dtd) then Done(Checksummed(w, base), true) else Inserts
  }

  function Base(i: nat): nat {
    BLOCK_SIZE + i * BLOCK_SIZE
  }

  ghost predicate SoundFrom(e: seq<Byte>, i: nat, n: nat)
    requires Base(n) <= |e|
  {
    forall k: nat :: i <= k < n ==> Base(k) + BLOCK_SIZE <= |e| && Sound(e, Base(k))
  }

  // ----- One extension -----

  ghost predicate SameBlock(e: seq<Byte>, f: seq<Byte>, base: nat)
    requires base + BLOCK_SIZE <= |e| && |e| == |f|
  {
    forall x: nat :: base <= x < base + BLOCK_SIZE ==> e[x] == f[x]
  }

  /** Only metadata and the checksum of the extension changed; its blocks are where they were; it validates. */
  ghost predicate PatchedWell(e: seq<Byte>, r: seq<Byte>, base: nat, payload: Payload)
    requires base + BLOCK_SIZE <= |e| && |e| == |r| && Sound(e, base)
  {
    if !Walkable(e, base) then SameBlock(e, r, base)
    else
      var dtd, j := DtdStart(e, base), CTA_HEADER_SIZE;
      && (forall x: nat :: base <= x < base + BLOCK_SIZE && r[x] != e[x] ==>
            x == base + 127 || InMetadata(e, base, j, dtd, x))
      && SameWalk(r, e, base, j, dtd) && FitsBelow(r, base, j, dtd, |r|) && AllReplaced(r, base, j, dtd, payload)
      && ChecksumValid(r, base)
  }

  lemma {:induction false} SameReplaced(e: seq<Byte>, f: seq<Byte>, base: nat, j: nat, dtd: nat, payload: Payload)
    requires Extension(e, base, dtd) && |e| == |f| && SameFrom(e, f, base, j, dtd) && Confined(e, base, j, dtd)
    requires FitsBelow(e, base, j, dtd, |e|) && FitsBelow(f, base, j, dtd, |f|) && AllReplaced(e, base, j, dtd, payload)
    ensures AllReplaced(f, base, j, dtd, payload)
    decreases dtd - j
  {
    hide Extended, BlockSize, ExtendedSize;
    if BlockAt(f, base, j, dtd) {
      assert e[base + j] == f[base + j];
      assert j + 1 < dtd ==> e[base + j + 1] == f[base + j + 1];
      SameReplaced(e, f, base, Next(e, base, j, dtd), dtd, payload);
      if HdrAt(f, base, j, dtd) {
        assert e[base + j + 2..base + j + 2 + PAYLOAD_SIZE] == f[base + j + 2..base + j + 2 + PAYLOAD_SIZE];
      }
    }
  }

  lemma PatchExtensionIsGood(e: seq<Byte>, base: nat, found: bool, payload: Payload)
    requires base + BLOCK_SIZE <= |e| && Sound(e, base) && PatchExtension(e, base, found, payload).Done?
    ensures PatchedWell(e, PatchExtension(e, base, found, payload).e, base, payload)
  {
    if Walkable(e, base) {
      SoundIsInReach(e, base);
      var dtd, j := DtdStart(e, base), CTA_HEADER_SIZE;
      var w := Walk(e, base, j, dtd, payload);
      var r := Checksummed(w, base);
      ChecksummedIsValid(w, base);
      WalkKeepsBlocks(e, base, j, dtd, payload);
      WalkReplacesAll(e, base, j, dtd, payload);
      hide Walk, Walkable, Sum, FitsBelow, TagsInside, AllReplaced, InMetadata, Blocks, End, Finds, ChecksumValid;
      SameRest(w, r, base, j, dtd);
      SameWalkTransitive(e, w, r, base, j, dtd);
      SameReplaced(w, r, base, j, dtd, payload);
      forall x: nat | base <= x < base + BLOCK_SIZE && r[x] != e[x]
        ensures x == base + 127 || InMetadata(e, base, j, dtd, x)
      {
        WalkChangesMetadataOnly(e, base, j, dtd, payload, x);
      }
    }
  }

  /** Nothing outside of the extension changes. */
  lemma PatchExtensionIsLocal(e: seq<Byte>, base: nat, found: bool, payload: Payload, x: nat)
    requires base + BLOCK_SIZE <= |e| && Sound(e, base) && PatchExtension(e, base, found, payload).Done?
    requires x < |e| && (x < base || base + BLOCK_SIZE <= x)
    ensures PatchExtension(e, base, found, payload).e[x] == e[x]
  {
    if Walkable(e, base) {
      SoundIsInReach(e, base);
      var dtd, j := DtdStart(e, base), CTA_HEADER_SIZE;
      WalkChangesMetadataOnly(e, base, j, dtd, payload, x);
      if InMetadata(e, base, j, dtd, x) {
        MetadataLiesAhead(e, base, j, dtd, x);
      }
    }
  }

  // ----- All extensions -----

  lemma SoundOnSameBlock(e: seq<Byte>, f: seq<Byte>, base: nat)
    requires base + BLOCK_SIZE <= |e| && |e| == |f| && SameBlock(e, f, base) && Sound(e, base)
    ensures (Walkable(e, base) <==> Walkable(f, base)) && Sound(f, base) && DtdStart(e, base) == DtdStart(f, base)
  {
    assert e[base] == f[base] && e[base + 2] == f[base + 2] && e[base + 3] == f[base + 3];
    if Walkable(e, base) {
      SameRest(e, f, base, CTA_HEADER_SIZE, DtdStart(e, base));
    }
  }

  lemma SoundStays(e: seq<Byte>, i: nat, n: nat, found: bool, payload: Payload)
    requires Base(n) <= |e| && i < n && SoundFrom(e, i, n) && PatchExtension(e, Base(i), found, payload).Done?
    ensures SoundFrom(PatchExtension(e, Base(i), found, payload).e, i + 1, n)
  {
    var p := PatchExtension(e, Base(i), found, payload).e;
    hide PatchExtension, Sound;
    forall k: nat | i + 1 <= k < n
      ensures Base(k) + BLOCK_SIZE <= |p| && Sound(p, Base(k))
    {
      forall x: nat | Base(k) <= x < Base(k) + BLOCK_SIZE
        ensures e[x] == p[x]
      {
        PatchExtensionIsLocal(e, Base(i), found, payload, x);
      }
      SoundOnSameBlock(e, p, Base(k));
    }
  }

  function PatchExtensions(e: seq<Byte>, i: nat, n: nat, found: bool, payload: Payload): (r: Step)
    requires Base(n) <= |e| && i <= n
    ensures r.Done? ==> |r.e| == |e|
    decreases n - i
  {
    if i == n then Done(e, found)
    else
      match PatchExtension(e, Base(i), found, payload)
      case Done(e', found') => PatchExtensions(e', i + 1, n, found', payload)
      case other => other
  }

  /** What is patched well stays so however the other blocks look. */
  lemma PatchedWellOnSameBlocks(e: seq<Byte>, e': seq<Byte>, r: seq<Byte>, r': seq<Byte>, base: nat, payload: Payload)
    requires base + BLOCK_SIZE <= |e| && |e| == |e'| == |r| == |r'|
    requires SameBlock(e, e', base) && SameBlock(r, r', base) && Sound(e, base) && PatchedWell(e, r, base, payload)
    ensures Sound(e', base) && PatchedWell(e', r', base, payload)
  {
    SoundOnSameBlock(e, e', base);
    if Walkable(e, base) {
      var dtd, j := DtdStart(e, base), CTA_HEADER_SIZE;
      hide AllReplaced, Blocks, End, TagsInside, FitsBelow, InMetadata, Finds, Sum;
      SameRest(e, e', base, j, dtd);
      SameRest(r, r', base, j, dtd);
      SameWalkTransitive(r', r, e, base, j, dtd);
      SameWalkTransitive(r', e, e', base, j, dtd);
      SameReplaced(r, r', base, j, dtd, payload);
      SumOfSame(r, r', base, base + BLOCK_SIZE);
    }
  }

  lemma {:induction false} PatchExtensionsAreLocal(e: seq<Byte>, i: nat, n: nat, found: bool, payload: Payload, x: nat)
    requires Base(n) <= |e| && i <= n && SoundFrom(e, i, n) && PatchExtensions(e, i, n, found, payload).Done?
    requires x < |e| && (x < Base(i) || Base(n) <= x)
    ensures PatchExtensions(e, i, n, found, payload).e[x] == e[x]
    decreases n - i
  {
    hide PatchExtension, Sound;
    if i < n {
      SoundStays(e, i, n, found, payload);
      var p := PatchExtension(e, Base(i), found, payload);
      PatchExtensionIsLocal(e, Base(i), found, payload, x);
      PatchExtensionsAreLocal(p.e, i + 1, n, p.found, payload, x);
    }
  }

  lemma {:induction false} PatchExtensionsAreGood(e: seq<Byte>, i: nat, n: nat, found: bool, payload: Payload, k: nat)
    requires Base(n) <= |e| && i <= k < n && SoundFrom(e, i, n) && PatchExtensions(e, i, n, found, payload).Done?
    ensures Sound(e, Base(k)) && PatchedWell(e, PatchExtensions(e, i, n, found, payload).e, Base(k), payload)
    decreases n - i
  {
    hide PatchExtension, Sound, PatchedWell;
    SoundStays(e, i, n, found, payload);
    var p := PatchExtension(e, Base(i), found, payload);
    var r := PatchExtensions(p.e, i + 1, n, p.found, payload).e;
    if k == i {
      PatchExtensionIsGood(e, Base(i), found, payload);
      forall x: nat | Base(k) <= x < Base(k) + BLOCK_SIZE
        ensures p.e[x] == r[x]
      {
        PatchExtensionsAreLocal(p.e, i + 1, n, p.found, payload, x);
      }
      PatchedWellOnSameBlocks(e, e, p.e, r, Base(k), payload);
    } else {
      PatchExtensionsAreGood(p.e, i + 1, n, p.found, payload, k);
      forall x: nat | Base(k) <= x < Base(k) + BLOCK_SIZE
        ensures p.e[x] == e[x]
      {
        PatchExtensionIsLocal(e, Base(i), found, payload, x);
      }
      PatchedWellOnSameBlocks(p.e, e, r, r, Base(k), payload);
    }
  }

  // ----- PatchEdid -----

  /** What PatchEdid comes to. NeedsInsertion stands for the path that makes room for a new data block. */
  datatype Outcome = NoPatch | PatchedTo(e: seq<Byte>) | NeedsInsertion | Undefined

  function ExtensionCount(e: seq<Byte>): nat
    requires |e| >= BLOCK_SIZE
  {
    |e| / BLOCK_SIZE - 1
  }

  /** An empty buffer, or whole blocks in the number that the base block asserts. */
  predicate Acceptable(e: seq<Byte>) {
    e == [] || (|e| >= BLOCK_SIZE && e[0x7E] as nat == ExtensionCount(e))
  }

  ghost predicate AllSound(e: seq<Byte>) {
    |e| >= BLOCK_SIZE && SoundFrom(e, 0, ExtensionCount(e))
  }

  /** The luminances of the display, as they are encoded for the metadata. */
  datatype Luminances = Luminances(maxContent: Byte, maxFrameAverage: Byte)

  /** new_hdr_static_metadata_block: SDR, traditional HDR and ST 2084, type 1, and the luminances. */
  function NewMetadata(l: Luminances): Payload {
    [7, 1, l.maxContent, l.maxFrameAverage, 0]
  }

  function MaybeRotated(e: seq<Byte>, rotate: bool): seq<Byte>
    requires |e| >= BLOCK_SIZE
  {
    if rotate then Rotated(e) else e
  }

  lemma RotationLeavesExtensions(e: seq<Byte>, rotate: bool)
    requires |e| >= BLOCK_SIZE
    ensures |MaybeRotated(e, rotate)| == |e|
    ensures forall x: nat :: BLOCK_SIZE <= x < |e| ==> MaybeRotated(e, rotate)[x] == e[x]
    ensures SoundFrom(e, 0, ExtensionCount(e)) ==> SoundFrom(MaybeRotated(e, rotate), 0, ExtensionCount(e))
  {
    var r := MaybeRotated(e, rotate);
    RotatedAt(e, 0);
    forall x: nat | BLOCK_SIZE <= x < |e|
      ensures r[x] == e[x]
    {
      RotatedAt(e, x);
      PartnerIsInvolution(TimingAt(e), x);
    }
    hide Rotated, Sound;
    if SoundFrom(e, 0, ExtensionCount(e)) {
      forall k: nat | k < ExtensionCount(e)
        ensures Base(k) + BLOCK_SIZE <= |r| && Sound(r, Base(k))
      {
        SoundOnSameBlock(e, r, Base(k));
      }
    }
  }

  function PatchedEdid(e: seq<Byte>, hdr: Option<Luminances>, rotate: bool): Outcome
    requires Acceptable(e)
  {
    if e == [] then NoPatch
    else
      var r := MaybeRotated(e, rotate);
      if hdr.None? then (if rotate then PatchedTo(r) else NoPatch)
      else
        RotationLeavesExtensions(e, rotate);
        match PatchExtensions(r, 0, ExtensionCount(e), false, NewMetadata(hdr.value))
        case OutOfBuffer => Undefined
        case Inserts => NeedsInsertion
        case Done(e', _) => PatchedTo(e')
  }

  /**
    Where no block has to be inserted, patching for HDR confines itself to the metadata and the checksums of the
    extensions: each of them is patched well, and the base block is what rotation alone makes of it.
  */
  lemma PatchingIsConfined(e: seq<Byte>, hdr: Luminances, rotate: bool, r: seq<Byte>)
    requires Acceptable(e) && AllSound(e) && PatchedEdid(e, Some(hdr), rotate) == PatchedTo(r)
    ensures |r| == |e| >= BLOCK_SIZE && SameBlock(MaybeRotated(e, rotate), r, 0)
    ensures forall k: nat :: k < ExtensionCount(e) ==> Sound(e, Base(k)) && PatchedWell(e, r, Base(k), NewMetadata(hdr))
  {
    var m, n, payload := MaybeRotated(e, rotate), ExtensionCount(e), NewMetadata(hdr);
    RotationLeavesExtensions(e, rotate);
    hide MaybeRotated, PatchExtensions, Sound, PatchedWell;
    forall x: nat | x < BLOCK_SIZE
      ensures m[x] == r[x]
    {
      PatchExtensionsAreLocal(m, 0, n, false, payload, x);
    }
    forall k: nat | k < n
      ensures Sound(e, Base(k)) && PatchedWell(e, r, Base(k), payload)
    {
      PatchExtensionsAreGood(m, 0, n, false, payload, k);
      PatchedWellOnSameBlocks(m, e, r, r, Base(k), payload);
    }
  }

  /** What is no CTA extension, holds no data blocks or has flags set is left as it is. */
  lemma OtherExtensionsStay(e: seq<Byte>, hdr: Luminances, rotate: bool, r: seq<Byte>, k: nat)
    requires Acceptable(e) && AllSound(e) && PatchedEdid(e, Some(hdr), rotate) == PatchedTo(r) && k < ExtensionCount(e)
    ensures |r| == |e| && Base(k) + BLOCK_SIZE <= |e|
    ensures e[Base(k)] != 2 || e[Base(k) + 2] == 0 || e[Base(k) + 3] != 0 ==> SameBlock(e, r, Base(k))
  {
    hide SoundFrom, Sound, PatchedEdid, MaybeRotated, SameBlock, ExtensionCount;
    assert Base(k) + BLOCK_SIZE <= |e| by { ExtensionsFit(e, k); }
    PatchingIsConfined(e, hdr, rotate, r);
  }

  lemma ExtensionsFit(e: seq<Byte>, k: nat)
    requires |e| >= BLOCK_SIZE && k < ExtensionCount(e)
    ensures Base(k) + BLOCK_SIZE <= |e|
  {}

  /**
    In all others each HDR static metadata block gets, byte for byte: support of SDR, traditional HDR and ST 2084,
    type 1, the two luminances, and an undefined minimum.
  */
  lemma HdrBlocksAreReplaced(e: seq<Byte>, hdr: Luminances, rotate: bool, r: seq<Byte>, k: nat, j: nat)
    requires Acceptable(e) && AllSound(e) && PatchedEdid(e, Some(hdr), rotate) == PatchedTo(r) && k < ExtensionCount(e)
    requires |e| == |r| && Base(k) + BLOCK_SIZE <= |e|
    requires e[Base(k)] == 2 && 0 < e[Base(k) + 2] <= 127 && e[Base(k) + 3] == 0
    requires j in Blocks(e, Base(k), CTA_HEADER_SIZE, e[Base(k) + 2] as nat)
    requires Base(k) + j + 1 < |e| && e[Base(k) + j] & 0xE0 == 0xE0 && SizeAt(e, Base(k), j) >= 6
    requires e[Base(k) + j + 1] == 6
    ensures var at := Base(k) + j + 2;
            && at + 5 <= |r|
            && r[at] & 1 == 1 && r[at] & 2 == 2 && r[at] & 4 == 4 && r[at] & 0xF8 == 0 && r[at + 1] == 1
            && r[at + 2] == hdr.maxContent && r[at + 3] == hdr.maxFrameAverage && r[at + 4] == 0
            && ChecksumValid(r, Base(k))
  {
    hide SoundFrom, PatchedEdid, MaybeRotated, SameBlock, Blocks, ExtensionCount, ChecksumValid, PatchedWell, Sound,
         BlockAt, HdrAt, SizeAt;
    var base, dtd, payload := Base(k), e[Base(k) + 2] as nat, NewMetadata(hdr);
    PatchingIsConfined(e, hdr, rotate, r);
    ReplacedIn(e, r, base, dtd, j, payload);
    assert r[base + j + 2 + 0] == payload[0] && r[base + j + 2 + 1] == payload[1] && r[base + j + 2 + 2] == payload[2];
    assert r[base + j + 2 + 3] == payload[3] && r[base + j + 2 + 4] == payload[4];
    MetadataBits(payload[0]);
  }

  lemma MetadataBits(b: Byte)
    requires b == 7
    ensures b & 1 == 1 && b & 2 == 2 && b & 4 == 4 && b & 0xF8 == 0
  {}

  lemma ReplacedIn(e: seq<Byte>, r: seq<Byte>, base: nat, dtd: nat, j: nat, payload: Payload)
    requires base + BLOCK_SIZE <= |e| && |e| == |r| && Sound(e, base) && Walkable(e, base) && dtd == DtdStart(e, base)
    requires Extension(e, base, dtd) && PatchedWell(e, r, base, payload) && j in Blocks(e, base, CTA_HEADER_SIZE, dtd)
    requires base + j + 1 < |e| && e[base + j] & 0xE0 == 0xE0 && SizeAt(e, base, j) >= 6 && e[base + j + 1] == 6
    ensures base + j + 2 + PAYLOAD_SIZE <= |r| && ChecksumValid(r, base)
    ensures forall i: nat :: i < PAYLOAD_SIZE ==> r[base + j + 2 + i] == payload[i]
  {
    hide ChecksumValid, Blocks, FitsBelow, AllReplaced, TagsInside, InMetadata, Finds, End, Extended, BlockSize;
    ListedBlock(e, base, CTA_HEADER_SIZE, dtd, j);
    ListedBlock(r, base, CTA_HEADER_SIZE, dtd, j);
    HdrIff(e, base, j, dtd);
    HeaderBits(e[base + j]);
    HeaderStays(e, r, base, dtd, j, payload);
    hide PatchedWell, HdrAt, BlockAt;
    forall i: nat | i < PAYLOAD_SIZE
      ensures base + j + 2 + PAYLOAD_SIZE <= |r| && r[base + j + 2 + i] == payload[i]
    {
      BlockIsReplaced(r, base, CTA_HEADER_SIZE, dtd, payload, |r|, j, i);
    }
  }

  /** Header and tag of a block are no metadata, so they stay. */
  lemma HeaderStays(e: seq<Byte>, r: seq<Byte>, base: nat, dtd: nat, j: nat, payload: Payload)
    requires base + BLOCK_SIZE <= |e| && |e| == |r| && Sound(e, base) && Walkable(e, base) && dtd == DtdStart(e, base)
    requires PatchedWell(e, r, base, payload) && Extension(e, base, dtd)
    requires BlockAt(e, base, j, dtd) && HdrAt(e, base, j, dtd) && BlockSize(e[base + j]) > 0
    requires j in Blocks(e, base, CTA_HEADER_SIZE, dtd)
    ensures e[base + j] == r[base + j] && e[base + j + 1] == r[base + j + 1]
  {
    NoMetadata(e, base, CTA_HEADER_SIZE, dtd, j, base + j);
    NoMetadata(e, base, CTA_HEADER_SIZE, dtd, j, base + j + 1);
  }

  /** No metadata lies where a non-empty HDR block has its header and its tag, not even that of an empty block. */
  lemma {:induction false} NoMetadata(e: seq<Byte>, base: nat, j: nat, dtd: nat, k: nat, x: nat)
    requires Extension(e, base, dtd) && k in Blocks(e, base, j, dtd) && base + k <= x <= base + k + 1
    requires BlockAt(e, base, k, dtd) && HdrAt(e, base, k, dtd) && BlockSize(e[base + k]) > 0
    ensures !InMetadata(e, base, j, dtd, x)
    decreases dtd - j
  {
    hide Extended, BlockSize;
    var n := Next(e, base, j, dtd);
    if k == j {
      if InMetadata(e, base, n, dtd, x) {
        MetadataLiesAhead(e, base, n, dtd, x);
      }
    } else {
      NoMetadata(e, base, n, dtd, k, x);
      ListedBlock(e, base, n, dtd, k);
      TagIsPlainHeader();
      if HdrAt(e, base, j, dtd) && BlockSize(e[base + j]) == 0 {
        ListedBlock(e, base, Next(e, base, n, dtd), dtd, k);
      }
    }
  }

  lemma {:induction false} ListedBlock(e: seq<Byte>, base: nat, j: nat, dtd: nat, k: nat)
    requires Extension(e, base, dtd) && k in Blocks(e, base, j, dtd)
    ensures j <= k && BlockAt(e, base, k, dtd)
    decreases dtd - j
  {
    if k != j {
      ListedBlock(e, base, Next(e, base, j, dtd), dtd, k);
    }
  }

  /** When there is nothing to patch. */
  lemma NoPatchIff(e: seq<Byte>, hdr: Option<Luminances>, rotate: bool)
    requires Acceptable(e)
    ensures PatchedEdid(e, hdr, rotate) == NoPatch <==> e == [] || (hdr.None? && !rotate)
    ensures e != [] && hdr.None? && rotate ==> PatchedEdid(e, hdr, rotate) == PatchedTo(Rotated(e))
  {
    hide PatchExtensions, Rotated;
  }

  /** Nothing undefined happens on sound extensions. */
  lemma SoundIsDefined(e: seq<Byte>, hdr: Option<Luminances>, rotate: bool)
    requires Acceptable(e) && (e == [] || AllSound(e))
    ensures PatchedEdid(e, hdr, rotate) != Undefined
  {
    if e != [] && hdr.Some? {
      RotationLeavesExtensions(e, rotate);
      hide MaybeRotated, PatchExtensions, SoundFrom;
      NeverOutOfBuffer(MaybeRotated(e, rotate), 0, ExtensionCount(e), false, NewMetadata(hdr.value));
    }
  }

  lemma {:induction false} NeverOutOfBuffer(e: seq<Byte>, i: nat, n: nat, found: bool, payload: Payload)
    requires Base(n) <= |e| && i <= n && SoundFrom(e, i, n)
    ensures !PatchExtensions(e, i, n, found, payload).OutOfBuffer?
    decreases n - i
  {
    if i < n {
      SoundIsInReach(e, Base(i));
      var p := PatchExtension(e, Base(i), found, payload);
      if p.Done? {
        SoundStays(e, i, n, found, payload);
        hide PatchExtension, SoundFrom;
        NeverOutOfBuffer(p.e, i + 1, n, p.found, payload);
      }
    }
  }

  // ----- When a block has to be inserted -----

  /** The extension is gone into and has HDR static metadata to replace. */
  predicate HasHdr(e: seq<Byte>, base: nat)
    requires base + BLOCK_SIZE <= |e| && Sound(e, base)
  {
    Walkable(e, base) && Finds(e, base, CTA_HEADER_SIZE, DtdStart(e, base))
  }

  lemma {:induction false} FoundNeverInserts(e: seq<Byte>, i: nat, n: nat, payload: Payload)
    requires Base(n) <= |e| && i <= n
    ensures !PatchExtensions(e, i, n, true, payload).Inserts?
    decreases n - i
  {
    if i < n && PatchExtension(e, Base(i), true, payload).Done? {
      FoundNeverInserts(PatchExtension(e, Base(i), true, payload).e, i + 1, n, payload);
    }
  }

  function FirstWalkable(e: seq<Byte>, i: nat, n: nat): (k: nat)
    requires Base(n) <= |e| && i <= n
    ensures i <= k <= n
    decreases n - i
  {
    if i == n || Walkable(e, Base(i)) then i else FirstWalkable(e, i + 1, n)
  }

  lemma OneExtension(e: seq<Byte>, base: nat, payload: Payload)
    requires base + BLOCK_SIZE <= |e| && Sound(e, base)
    ensures var p := PatchExtension(e, base, false, payload);
            if !Walkable(e, base) then p == Done(e, false)
            else if HasHdr(e, base) then p.Done? && p.found
            else p == Inserts
  {
    SoundIsInReach(e, base);
  }

  lemma {:induction false} InsertsIff(e: seq<Byte>, i: nat, n: nat, payload: Payload)
    requires Base(n) <= |e| && i <= n && SoundFrom(e, i, n)
    ensures var k := FirstWalkable(e, i, n);
            PatchExtensions(e, i, n, false, payload) == Inserts <==>
            k < n && !HasHdr(e, Base(k))
    decreases n - i
  {
    hide PatchExtension, HasHdr, Sound, Walkable;
    if i < n {
      OneExtension(e, Base(i), payload);
      if !Walkable(e, Base(i)) {
        assert PatchExtensions(e, i, n, false, payload) == PatchExtensions(e, i + 1, n, false, payload);
        hide SoundFrom;
        InsertsIff(e, i + 1, n, payload);
      } else if HasHdr(e, Base(i)) {
        hide SoundFrom;
        FoundNeverInserts(PatchExtension(e, Base(i), false, payload).e, i + 1, n, payload);
      }
    }
  }

  lemma SameFirstWalkable(e: seq<Byte>, f: seq<Byte>, i: nat, n: nat)
    requires Base(n) <= |e| && |e| == |f| && i <= n
    requires forall k: nat :: k < n ==> Walkable(e, Base(k)) == Walkable(f, Base(k))
    ensures FirstWalkable(e, i, n) == FirstWalkable(f, i, n)
    decreases n - i
  {
    hide Walkable;
    if i < n { SameFirstWalkable(e, f, i + 1, n); }
  }

  /** A new block is needed exactly when the first CTA extension that is gone into has no HDR static metadata. */
  lemma NeedsInsertionIff(e: seq<Byte>, hdr: Luminances, rotate: bool)
    requires Acceptable(e) && AllSound(e)
    ensures var n := ExtensionCount(e); var k := FirstWalkable(e, 0, n);
            PatchedEdid(e, Some(hdr), rotate) == NeedsInsertion <==>
            k < n && !HasHdr(e, Base(k))
  {
    var m, n := MaybeRotated(e, rotate), ExtensionCount(e);
    RotationLeavesExtensions(e, rotate);
    InsertsIff(m, 0, n, NewMetadata(hdr));
    hide MaybeRotated, PatchExtensions;
    forall k: nat | k < n
      ensures Walkable(e, Base(k)) == Walkable(m, Base(k))
      ensures Sound(e, Base(k)) && Sound(m, Base(k)) && HasHdr(e, Base(k)) == HasHdr(m, Base(k))
    {
      SoundOnSameBlock(e, m, Base(k));
      if Walkable(e, Base(k)) {
        SameRest(e, m, Base(k), CTA_HEADER_SIZE, DtdStart(e, Base(k)));
      }
    }
    hide Walkable, HasHdr, Sound;
    SameFirstWalkable(e, m, 0, n);
  }

  // ----- When the timings are safe -----

  /** Whatever the luminances, the walk leaves everything from the timings on as it is. */
  ghost predicate TimingsAreSafe(e: seq<Byte>, base: nat, j: nat, dtd: nat)
    requires Extension(e, base, dtd) && FitsBelow(e, base, j, dtd, |e|)
  {
    forall l: Luminances :: KeepsTimings(e, base, j, dtd, NewMetadata(l))
  }

  /**
    This holds exactly when all metadata ends before the timings, or only its last byte, which is always 0, reaches
    into them and replaces a 0 there.
  */
  lemma TimingsAreSafeIff(e: seq<Byte>, base: nat, j: nat, dtd: nat)
    requires Extension(e, base, dtd) && FitsBelow(e, base, j, dtd, |e|)
    ensures TimingsAreSafe(e, base, j, dtd) <==>
            || FitsBelow(e, base, j, dtd, base + dtd)
            || (FitsBelow(e, base, j, dtd, base + dtd + 1) && e[base + dtd] == 0)
  {
    hide Walk, FitsBelow;
    var limit := base + dtd;
    if FitsBelow(e, base, j, dtd, limit) {
      forall l: Luminances, x: nat | limit <= x < |e|
        ensures Walk(e, base, j, dtd, NewMetadata(l))[x] == e[x]
      {
        FittingKeepsTimings(e, base, j, dtd, NewMetadata(l), limit, x);
      }
    } else {
      var end := EndOfMetadata(e, base, j, dtd, limit);
      if end == limit + 1 {
        ZeroReachesIn(e, base, j, dtd);
      } else {
        if FitsBelow(e, base, j, dtd, limit + 1) {
          FitsBelowMore(e, base, j, dtd, limit + 1, end - 1);
        }
        LuminanceReachesIn(e, base, j, dtd, end);
      }
    }
  }

  /** Where only the last byte of the metadata reaches into the timings. */
  lemma ZeroReachesIn(e: seq<Byte>, base: nat, j: nat, dtd: nat)
    requires Extension(e, base, dtd) && FitsBelow(e, base, j, dtd, |e|)
    requires FitsBelow(e, base, j, dtd, base + dtd + 1) && !FitsBelow(e, base, j, dtd, base + dtd)
    ensures TimingsAreSafe(e, base, j, dtd) <==> e[base + dtd] == 0
  {
    hide Walk, FitsBelow;
    forall l: Luminances
      ensures Walk(e, base, j, dtd, NewMetadata(l))[base + dtd] == 0
    {
      LastMetadata(e, base, j, dtd, NewMetadata(l), base + dtd + 1, 4);
    }
    var l := Luminances(0, 0);
    assert KeepsTimings(e, base, j, dtd, NewMetadata(l)) ==> e[base + dtd] == 0;
    forall l: Luminances, x: nat | base + dtd < x < |e|
      ensures Walk(e, base, j, dtd, NewMetadata(l))[x] == e[x]
    {
      FittingKeepsTimings(e, base, j, dtd, NewMetadata(l), base + dtd + 1, x);
    }
  }

  /** Where more of it does, and with it the frame-average luminance, which need not be what was there. */
  lemma LuminanceReachesIn(e: seq<Byte>, base: nat, j: nat, dtd: nat, end: nat)
    requires Extension(e, base, dtd) && FitsBelow(e, base, j, dtd, |e|) && base + dtd + 1 < end
    requires FitsBelow(e, base, j, dtd, end) && !FitsBelow(e, base, j, dtd, end - 1)
    ensures !TimingsAreSafe(e, base, j, dtd)
  {
    hide Walk, FitsBelow;
    LastMetadata(e, base, j, dtd, NewMetadata(Luminances(0, 0)), end, 3);
    var l := Luminances(0, !e[end - 2]);
    LastMetadata(e, base, j, dtd, NewMetadata(l), end, 3);
    OtherBits(e[end - 2]);
    assert !KeepsTimings(e, base, j, dtd, NewMetadata(l));
  }

  lemma OtherBits(b: Byte)
    ensures !b != b
  {}

  /** An EDID whose CTA extension holds one empty extended data block, ahead of timings that start with a 6. */
  const SPILLING: seq<Byte> :=
    seq(2 * BLOCK_SIZE, i requires 0 <= i =>
          if i == 0x7E then 1 else if i == 128 then CTA_TAG else if i == 130 then 5 else if i == 132 then 0xE0
          else if i == 133 then HDR_STATIC_TAG else 0)

  /** PatchEdid takes the block for HDR static metadata and writes over the timings. */
  lemma TimingsCanBeOverwritten(l: Luminances)
    ensures Acceptable(SPILLING) && DtdStart(SPILLING, 128) == 5
    ensures var r := PatchedEdid(SPILLING, Some(l), false);
            && r.PatchedTo? && |r.e| == |SPILLING|
            && SPILLING[134..139] == [0, 0, 0, 0, 0] && r.e[134..139] == NewMetadata(l)
  {
    var e, payload := SPILLING, NewMetadata(l);
    SpillingWalk(payload);
    var w := Overwritten(e, 134, payload);
    var r := Checksummed(w, 128);
    hide Walk, Finds, FitsBelow, Checksummed;
    assert PatchExtension(e, 128, false, payload) == Done(r, true);
    assert Base(0) == 128 && PatchExtensions(r, 1, 1, true, payload) == Done(r, true);
    assert PatchExtensions(e, 0, 1, false, payload) == Done(r, true);
    forall x: nat | 134 <= x < 139
      ensures r[x] == payload[x - 134]
    {
      ChecksummedAt(w, 128, x);
    }
  }

  lemma SpillingWalk(payload: Payload)
    ensures Extension(SPILLING, 128, 5) && FitsBelow(SPILLING, 128, 4, 5, |SPILLING|) && Finds(SPILLING, 128, 4, 5)
    ensures Walk(SPILLING, 128, 4, 5, payload) == Overwritten(SPILLING, 134, payload)
  {
    EmptyExtendedHeader();
    hide Extended, BlockSize;
    assert BlockAt(SPILLING, 128, 4, 5) && HdrAt(SPILLING, 128, 4, 5) && Next(SPILLING, 128, 4, 5) == 5;
    assert FitsBelow(SPILLING, 128, 5, 5, |SPILLING|);
  }

  lemma EmptyExtendedHeader()
    ensures Extended(0xE0) && BlockSize(0xE0) == 0
  {}

  // ----- In place -----

  method Memcpy(e: array<Byte>, at: nat, payload: Payload)
    requires at + PAYLOAD_SIZE <= e.Length
    modifies e
    ensures e[..] == Overwritten(old(e[..]), at, payload)
  {
    for i := 0 to PAYLOAD_SIZE
      invariant e[..at] == old(e[..at]) && e[at + i..] == old(e[at + i..])
      invariant e[at..at + i] == payload[..i]
    {
      e[at + i] := payload[i];
    }
    assert e[..] == e[..at] + e[at..at + PAYLOAD_SIZE] + e[at + PAYLOAD_SIZE..];
  }

  /** The walk over the data blocks of one extension. */
  method WalkInPlace(e: array<Byte>, base: nat, dtd: nat, payload: Payload, found: bool) returns (has: bool)
    requires Extension(e[..], base, dtd) && FitsBelow(e[..], base, CTA_HEADER_SIZE, dtd, e.Length)
    modifies e
    ensures e[..] == Walk(old(e[..]), base, CTA_HEADER_SIZE, dtd, payload)
    ensures has == (found || Finds(old(e[..]), base, CTA_HEADER_SIZE, dtd))
  {
    hide Extended, BlockSize, ExtendedSize, Overwritten, SameWalk;
    has := found;
    var j := CTA_HEADER_SIZE;
    while j < dtd
      invariant FitsBelow(e[..], base, j, dtd, e.Length)
      invariant Walk(e[..], base, j, dtd, payload) == Walk(old(e[..]), base, CTA_HEADER_SIZE, dtd, payload)
      invariant (has || Finds(e[..], base, j, dtd)) == (found || Finds(old(e[..]), base, CTA_HEADER_SIZE, dtd))
      decreases dtd - j
    {
      var header := e[base + j];
      var size := BlockSize(header);
      if j + 1 + size > dtd {
        return;
      }
      ghost var before := e[..];
      TurnWalksOn(before, base, j, dtd, payload);
      if Extended(header) {
        var extendedSize := ExtendedSize(size);
        if e[base + j + 1] == HDR_STATIC_TAG && extendedSize >= PAYLOAD_SIZE {
          Memcpy(e, base + j + 2, payload);
          has := true;
        }
      }
      assert e[..] == EdidHdr.Patched(before, base, j, dtd, payload);
      j := j + 1 + size;
    }
  }

  lemma TurnWalksOn(e: seq<Byte>, base: nat, j: nat, dtd: nat, payload: Payload)
    requires Extension(e, base, dtd) && FitsBelow(e, base, j, dtd, |e|) && BlockAt(e, base, j, dtd)
    ensures var p, n := EdidHdr.Patched(e, base, j, dtd, payload), Next(e, base, j, dtd);
            FitsBelow(p, base, n, dtd, |e|) && (Finds(p, base, n, dtd) <==> Finds(e, base, n, dtd))
  {
    PatchedWalksOn(e, base, j, dtd, payload);
  }

  /** PatchEdid, on a copy of the buffer it is given. */
  method PatchEdid(pEdid: seq<Byte>, hdr: Option<Luminances>, rotate: bool) returns (r: Outcome)
    requires Acceptable(pEdid) && PatchedEdid(pEdid, hdr, rotate) != Undefined
    ensures r == PatchedEdid(pEdid, hdr, rotate)
  {
    hide Rotated, PatchExtension, PatchExtensions, NewMetadata;
    if pEdid == [] {
      return NoPatch;
    }
    var edid := new Byte[|pEdid|](i requires 0 <= i < |pEdid| => pEdid[i]);
    assert edid[..] == pEdid;
    if rotate {
      Rotate(edid);
    }
    if hdr.None? {
      return if rotate then PatchedTo(edid[..]) else NoPatch;
    }
    RotationLeavesExtensions(pEdid, rotate);
    ghost var start := edid[..];
    var payload := NewMetadata(hdr.value);
    var n := edid.Length / BLOCK_SIZE - 1;
    var has := false;
    hide MaybeRotated;
    for i := 0 to n
      invariant PatchExtensions(edid[..], i, n, has, payload) == PatchExtensions(start, 0, n, false, payload)
    {
      Unroll(edid[..], i, n, has, payload);
      var ok;
      ok, has := PatchOne(edid, Base(i), has, payload);
      if !ok {
        return NeedsInsertion;
      }
    }
    Finished(edid[..], n, has, payload);
    r := PatchedTo(edid[..]);
  }

  lemma Unroll(e: seq<Byte>, i: nat, n: nat, found: bool, payload: Payload)
    requires Base(n) <= |e| && i < n
    ensures Base(i) + BLOCK_SIZE <= |e|
    ensures var p := PatchExtension(e, Base(i), found, payload);
            PatchExtensions(e, i, n, found, payload) ==
            if p.Done? then PatchExtensions(p.e, i + 1, n, p.found, payload) else p
  {
    hide PatchExtension;
  }

  lemma Finished(e: seq<Byte>, n: nat, found: bool, payload: Payload)
    requires Base(n) <= |e|
    ensures PatchExtensions(e, n, n, found, payload) == Done(e, found)
  {}

  /** The body of the loop over the extensions. */
  method PatchOne(e: array<Byte>, base: nat, found: bool, payload: Payload) returns (ok: bool, has: bool)
    requires base + BLOCK_SIZE <= e.Length && !PatchExtension(e[..], base, found, payload).OutOfBuffer?
    modifies e
    ensures PatchExtension(old(e[..]), base, found, payload) == if ok then Done(e[..], has) else Inserts
  {
    if e[base] != CTA_TAG {
      return true, found;
    }
    if e[base + 2] == 0 || e[base + 3] != 0 {
      return true, found;
    }
    has := WalkInPlace(e, base, e[base + 2] as nat, payload, found);
    if !has {
      return false, has;
    }
    PatchChecksum(e, base);
    ok := true;
  }

  // ----- GenerateSimpleEdid -----

  const MAX_SIZE: bv32 := 3840

  function Limited(n: bv32): (r: bv32)
    ensures r <= MAX_SIZE
  {
    if n < MAX_SIZE then n else MAX_SIZE
  }

  /** ( n >> 8 ) & 0xff, which the limit makes a nibble. */
  function UpperBits(n: bv32): (b: Byte)
    requires n <= MAX_SIZE
    ensures b & !Mask(4) == 0
  {
    ((n >> 8) & 0xFF) as Byte
  }

  function LowerBits(n: bv32): Byte {
    (n & 0xFF) as Byte
  }

  /** The two bytes that hold a size of the timing. */
  function WithSize(e: seq<Byte>, high: nat, low: nat, n: bv32): seq<Byte>
    requires high < |e| && low < |e| && n <= MAX_SIZE
  {
    e[high := SetBitRange(e[high], 7, 4, UpperBits(n))][low := LowerBits(n)]
  }

  function Resized(e: seq<Byte>, width: bv32, height: bv32): seq<Byte>
    requires |e| >= BLOCK_SIZE
  {
    match TimingAt(e)
    case None => e
    case Some(d) => WithSize(WithSize(e, d + 4, d + 2, Limited(width)), d + 7, d + 5, Limited(height))
  }

  /** `base` stands for s_GamescopeBaseEdid. */
  method GenerateSimpleEdid(base: seq<Byte>, width: bv32, height: bv32) returns (e: array<Byte>)
    requires |base| >= BLOCK_SIZE
    ensures e[..] == Checksummed(Resized(base, width, height), 0)
  {
    var w, h := Limited(width), Limited(height);
    e := new Byte[|base|](i requires 0 <= i < |base| => base[i]);
    assert e[..] == base;
    hide WithSize, Checksummed, Active, Limited;
    var i := 0;
    while i < DESCRIPTOR_COUNT
      invariant i <= DESCRIPTOR_COUNT && e[..] == base && FirstActive(base, 0) == FirstActive(base, i)
    {
      var d := DescriptorAt(i);
      ActiveIs(base, i);
      if e[d] != 0 || e[d + 1] != 0 {
        assert TimingAt(base) == Some(d);
        SetSize(e, d + 4, d + 2, w);
        SetSize(e, d + 7, d + 5, h);
        break;
      }
      i := i + 1;
    }
    PatchChecksum(e, 0);
  }

  method SetSize(e: array<Byte>, high: nat, low: nat, n: bv32)
    requires high < e.Length && low < e.Length && n <= MAX_SIZE && high != low
    modifies e
    ensures e[..] == WithSize(old(e[..]), high, low, n)
  {
    e[high] := SetBitRange(e[high], 7, 4, UpperBits(n));
    e[low] := LowerBits(n);
  }

  lemma SizeIsReadBack(b: Byte, n: bv32)
    requires n <= MAX_SIZE
    ensures Twelve(HighNibble(SetBitRange(b, 7, 4, UpperBits(n))), LowerBits(n)) == n
    ensures LowNibble(SetBitRange(b, 7, 4, UpperBits(n))) == LowNibble(b)
  {
    BitsTogether(n);
    hide SetBitRange, LowNibble, Mask, Twelve, UpperBits, LowerBits;
    SetBitsAreReadBack(b, 7, 4, UpperBits(n));
    LowNibbleIsKept(b, UpperBits(n));
  }

  lemma LimitedIsTheSmaller(n: bv32)
    ensures Limited(n) == if n <= 3840 then n else 3840
  {}

  lemma BitsTogether(n: bv32)
    requires n <= MAX_SIZE
    ensures Twelve(UpperBits(n), LowerBits(n)) == n
  {}

  lemma LowNibbleIsKept(b: Byte, bits: Byte)
    requires bits & !Mask(4) == 0
    ensures LowNibble(SetBitRange(b, 7, 4, bits)) == LowNibble(b)
  {}

  /**
    The generated EDID decodes to the size asked for, at most 3840 each way, keeps the blanking of the template and
    validates.
  */
  lemma GeneratedSizeIsDecoded(base: seq<Byte>, width: bv32, height: bv32, d: nat)
    requires |base| >= BLOCK_SIZE && TimingAt(base) == Some(d)
    ensures var e := Checksummed(Resized(base, width, height), 0);
            && |e| == |base| && ChecksumValid(e, 0)
            && Horizontal(e, d) == (if width <= 3840 then width else 3840)
            && Vertical(e, d) == (if height <= 3840 then height else 3840)
            && HorizontalBlanking(e, d) == HorizontalBlanking(base, d)
            && VerticalBlanking(e, d) == VerticalBlanking(base, d)
  {
    var s := Resized(base, width, height);
    var e := Checksummed(s, 0);
    ChecksummedIsValid(s, 0);
    SizeIsReadBack(base[d + 4], Limited(width));
    SizeIsReadBack(base[d + 7], Limited(height));
    LimitedIsTheSmaller(width);
    LimitedIsTheSmaller(height);
    hide TimingAt, SetBitRange, HighNibble, LowNibble, Twelve, ChecksumValid, Checksummed, Limited, UpperBits,
         LowerBits;
    forall x: nat | d <= x < d + DESCRIPTOR_SIZE
      ensures e[x] == s[x]
    {
      ChecksummedAt(s, 0, x);
    }
  }
}
