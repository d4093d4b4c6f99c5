/** Drive geometry: the 22-byte descriptor of a LUN image, and logical block addresses as
    cylinder, head and bytes from index. */
module Geometry {
  import opened Arithmetic
  import opened Bytes

  const SECTOR_SIZE: nat := 512
  const SECTORS_PER_TRACK: nat := 33
  const TRACK_BYTES: nat := 33 * 512
  const DSC_LENGTH: nat := 22

  /** The largest image ADFS can address. */
  const MAX_IMAGE: nat := 536870656

  // ---- Head counts ----------------------------------------------------------------

  predicate Divides(d: nat, n: nat)
    requires d >= 1
  {
    n % d == 0
  }

  /** The largest divisor of `tracks` that is at most `from`. */
  function LargestDivisor(tracks: nat, from: nat): (heads: nat)
    requires from >= 1
    ensures 1 <= heads <= from && Divides(heads, tracks)
    ensures forall d :: heads < d <= from ==> !Divides(d, tracks)
  {
    if !Divides(from, tracks) && from != 1 then LargestDivisor(tracks, from - 1) else from
  }

  /** The search filesystemCreateDscFromLunImage makes, from 16 heads down. */
  method FindHeads(tracks: uint32) returns (heads: uint32)
    ensures heads == LargestDivisor(tracks, 16)
  {
    hide Divides;
    heads := 16;
    while !Divides(heads, tracks) && heads != 1
      invariant 1 <= heads <= 16
      invariant LargestDivisor(tracks, heads) == LargestDivisor(tracks, 16)
      decreases heads
    {
      heads := heads - 1;
    }
  }

  // ---- Descriptors ----------------------------------------------------------------

  /** The descriptor written for an image of `size` bytes. */
  function DescriptorFor(size: uint32): (dsc: seq<byte>)
    ensures |dsc| == DSC_LENGTH
  {
    var tracks := size / TRACK_BYTES;
    var heads := LargestDivisor(tracks, 16);
    DescriptorBytes(Quotient(tracks, heads), heads)
  }

  /** Mode select header, extent descriptor (block size 512), drive parameter list. */
  function DescriptorBytes(cylinders: nat, heads: nat): (dsc: seq<byte>)
    ensures |dsc| == DSC_LENGTH
  {
    [0, 0, 0, 8,
     0, 0, 0, 0, 0, 0, 2, 0,
     1, ToU8(cylinders / 256), ToU8(cylinders), ToU8(heads), 0, 128, 0, 128, 0, 1]
  }

  /** Three bytes, most significant first. */
  function BigEndian(a: int, b: int, c: int): int
  {
    a * 0x1_0000 + b * 0x100 + c
  }

  function BlockSize(dsc: seq<byte>): nat
    requires |dsc| >= DSC_LENGTH
  {
    BigEndian(dsc[9], dsc[10], dsc[11])
  }

  function Cylinders(dsc: seq<byte>): (cylinders: nat)
    requires |dsc| >= DSC_LENGTH
    ensures cylinders <= 65535
  {
    BigEndian(0, dsc[13], dsc[14])
  }

  function Heads(dsc: seq<byte>): (heads: nat)
    requires |dsc| >= DSC_LENGTH
    ensures heads <= 255
  {
    dsc[15]
  }

  /** Sectors of the drive a descriptor describes, as FORMAT and VERIFY compute them. */
  function Sectors(dsc: seq<byte>): (n: uint32)
    requires |dsc| >= DSC_LENGTH
  {
    TrackBound(dsc);
    Heads(dsc) * Cylinders(dsc) * SECTORS_PER_TRACK
  }

  lemma TrackBound(dsc: seq<byte>)
    requires |dsc| >= DSC_LENGTH
    ensures 0 <= Heads(dsc) * Cylinders(dsc) <= 255 * 65535
  {
    var heads, cylinders := Heads(dsc), Cylinders(dsc);
    hide Heads, Cylinders;
    ScaledOrder(heads, 255, cylinders);
    ScaledOrder(0, heads, cylinders);
  }

  /** The image size filesystemGetLunSizeFromDsc computes, in 32-bit arithmetic. */
  function SizeFromDsc(dsc: seq<byte>): uint32
    requires |dsc| >= DSC_LENGTH
  {
    ToU32(Sectors(dsc) * BlockSize(dsc))
  }

  /** The file size FORMAT allocates, in 32-bit arithmetic. */
  function FormatSize(dsc: seq<byte>): uint32
    requires |dsc| >= DSC_LENGTH
  {
    ToU32(Sectors(dsc) * SECTOR_SIZE)
  }

  lemma ExactDivision(tracks: nat, heads: nat)
    requires heads >= 1 && tracks % heads == 0
    ensures heads * (tracks / heads) == tracks
  {
  }

  lemma SmallerProduct(heads: nat, a: nat, b: nat)
    requires heads >= 1 && a < b
    ensures heads * a < heads * b
  {
  }

  /** What a stored descriptor says about the drive. */
  lemma StoredGeometry(cylinders: nat, heads: nat)
    requires 1 <= heads <= 16
    ensures var dsc := DescriptorBytes(cylinders, heads);
            BlockSize(dsc) == SECTOR_SIZE && Heads(dsc) == heads && Cylinders(dsc) == cylinders % 0x1_0000
  {
    TwoBytes(cylinders);
  }

  lemma TwoBytes(n: nat)
    ensures BigEndian(0, ToU8(n / 256), ToU8(n)) == n % 0x1_0000
  {
    var a := n / 0x100;
    UniqueQuotient(n, 0x1_0000, a / 0x100, a % 0x100 * 0x100 + n % 0x100);
  }

  /** The sectors a stored descriptor describes: those of the whole tracks, exactly when the
      cylinder count fits its two bytes. */
  lemma StoredSectors(tracks: nat, heads: nat)
    requires 1 <= heads <= 16 && Divides(heads, tracks)
    ensures var dsc := DescriptorBytes(tracks / heads, heads);
            && BlockSize(dsc) == SECTOR_SIZE
            && (tracks / heads < 0x1_0000 ==> Sectors(dsc) == tracks * SECTORS_PER_TRACK)
            && (tracks / heads >= 0x1_0000 ==> Sectors(dsc) < tracks * SECTORS_PER_TRACK)
  {
    hide BlockSize, Heads, Cylinders;
    var cylinders := tracks / heads;
    StoredGeometry(cylinders, heads);
    ExactDivision(tracks, heads);
    if cylinders >= 0x1_0000 {
      SmallerProduct(heads, cylinders % 0x1_0000, cylinders);
    }
  }

  /** Writing a descriptor and reading the size back loses the part of a track at the end,
      and nothing else, exactly when the cylinder count fits its two bytes. */
  lemma DescriptorRoundTrip(size: uint32)
    ensures var tracks := size / TRACK_BYTES;
            SizeFromDsc(DescriptorFor(size)) == size - size % TRACK_BYTES
            <==> tracks / LargestDivisor(tracks, 16) < 0x1_0000
    ensures size <= MAX_IMAGE ==> SizeFromDsc(DescriptorFor(size)) == size - size % TRACK_BYTES
    ensures FormatSize(DescriptorFor(size)) == SizeFromDsc(DescriptorFor(size))
  {
    hide Divides, Sectors, BlockSize, DescriptorBytes;
    var tracks := size / TRACK_BYTES;
    var heads := LargestDivisor(tracks, 16);
    StoredSectors(tracks, heads);
    QuotientBound(tracks, heads);
  }

  // ---- Translation ----------------------------------------------------------------

  /** The eight bytes of a TRANSLATE reply. */
  function Packed(cylinder: nat, head: nat, bytes: nat): (r: seq<byte>)
    ensures |r| == 8
  {
    [ToU8(cylinder / 0x1_0000), ToU8(cylinder / 0x100), ToU8(cylinder), ToU8(head),
     ToU8(bytes / 0x100_0000), ToU8(bytes / 0x1_0000), ToU8(bytes / 0x100), ToU8(bytes)]
  }

  /** The reply to a block address: cylinder, head, bytes from index. */
  function TranslateReply(lba: nat, heads: nat): (r: seq<byte>)
    requires heads >= 1
    ensures |r| == 8
  {
    Packed(Quotient(lba, heads * SECTORS_PER_TRACK), Remainder(lba / SECTORS_PER_TRACK, heads),
           (lba % SECTORS_PER_TRACK + 1) * 256)
  }

  /** How a host reads the reply. */
  function ReplyCylinder(r: seq<byte>): int requires |r| == 8 { BigEndian(r[0], r[1], r[2]) }

  function ReplyHead(r: seq<byte>): int requires |r| == 8 { r[3] }

  function ReplyBytes(r: seq<byte>): int requires |r| == 8 { r[4] * 0x100_0000 + BigEndian(r[5], r[6], r[7]) }

  lemma ThreeBytes(n: nat)
    requires n < 0x100_0000
    ensures BigEndian(ToU8(n / 0x1_0000), ToU8(n / 0x100), ToU8(n)) == n
  {
    var a := n / 0x100;
    UniqueQuotient(n, 0x1_0000, a / 0x100, a % 0x100 * 0x100 + n % 0x100);
  }

  lemma PackedDecodes(cylinder: nat, head: nat, bytes: nat)
    requires cylinder < 0x100_0000 && head < 0x100 && bytes < 0x100_0000
    ensures var r := Packed(cylinder, head, bytes);
            ReplyCylinder(r) == cylinder && ReplyHead(r) == head && ReplyBytes(r) == bytes
  {
    hide BigEndian;
    ThreeBytes(cylinder);
    ThreeBytes(bytes);
  }

  lemma CylinderAndHead(lba: nat, heads: nat)
    requires heads >= 1
    ensures var c, h := lba / (heads * SECTORS_PER_TRACK), (lba / SECTORS_PER_TRACK) % heads;
            (c * heads + h) * SECTORS_PER_TRACK + lba % SECTORS_PER_TRACK == lba && h < heads
  {
    var track := lba / SECTORS_PER_TRACK;
    var c, q := lba / (heads * SECTORS_PER_TRACK), track / heads;
    assert track == q * heads + track % heads;
    assert lba == q * (heads * SECTORS_PER_TRACK) + (track % heads) * SECTORS_PER_TRACK + lba % SECTORS_PER_TRACK;
    UniqueQuotient(lba, heads * SECTORS_PER_TRACK, q, (track % heads) * SECTORS_PER_TRACK + lba % SECTORS_PER_TRACK);
  }

  /** The reply determines the address it was made for. */
  lemma TranslateInverts(lba: nat, heads: nat)
    requires 1 <= heads <= 255 && lba < 0x20_0000
    ensures var r := TranslateReply(lba, heads);
            && (ReplyCylinder(r) * heads + ReplyHead(r)) * SECTORS_PER_TRACK + ReplyBytes(r) / 256 - 1 == lba
            && ReplyHead(r) < heads
            && ReplyBytes(r) % 256 == 0 && 1 <= ReplyBytes(r) / 256 <= SECTORS_PER_TRACK
  {
    hide Packed;
    CylinderAndHead(lba, heads);
    QuotientBound(lba, heads * SECTORS_PER_TRACK);
    PackedDecodes(lba / (heads * SECTORS_PER_TRACK), (lba / SECTORS_PER_TRACK) % heads,
                  (lba % SECTORS_PER_TRACK + 1) * 256);
  }

  /** TRANSLATE names a cylinder of the drive exactly for the addresses VERIFY accepts. */
  lemma TranslateAgreesWithVerify(lba: nat, dsc: seq<byte>)
    requires |dsc| >= DSC_LENGTH && Heads(dsc) >= 1 && lba < 0x20_0000
    ensures ReplyCylinder(TranslateReply(lba, Heads(dsc))) < Cylinders(dsc) <==> lba < Sectors(dsc)
  {
    hide TranslateReply, ReplyCylinder, Heads, Cylinders;
    ReplyCylinderIs(lba, Heads(dsc));
    InsideDrive(lba, Heads(dsc), Cylinders(dsc));
  }

  lemma ReplyCylinderIs(lba: nat, heads: nat)
    requires heads >= 1 && heads <= 255 && lba < 0x20_0000
    ensures ReplyCylinder(TranslateReply(lba, heads)) == lba / (heads * SECTORS_PER_TRACK)
  {
    hide Packed;
    QuotientBound(lba, heads * SECTORS_PER_TRACK);
    PackedDecodes(lba / (heads * SECTORS_PER_TRACK), (lba / SECTORS_PER_TRACK) % heads,
                  (lba % SECTORS_PER_TRACK + 1) * 256);
  }

  lemma InsideDrive(lba: nat, heads: nat, cylinders: nat)
    requires heads >= 1
    ensures lba / (heads * SECTORS_PER_TRACK) < cylinders <==> lba < heads * cylinders * SECTORS_PER_TRACK
  {
    SectorsPerCylinder(heads, cylinders);
    BelowMultiple(lba, heads * SECTORS_PER_TRACK, cylinders);
  }

  lemma SectorsPerCylinder(heads: nat, cylinders: nat)
    ensures heads * cylinders * SECTORS_PER_TRACK == cylinders * (heads * SECTORS_PER_TRACK)
  {
  }

  lemma BelowMultiple(n: nat, d: nat, q: nat)
    requires d >= 1
    ensures n / d < q <==> n < q * d
  {
    var k := n / d;
    assert n == k * d + n % d;
    if k < q {
      ScaledOrder(k + 1, q, d);
      assert (k + 1) * d == k * d + d;
    } else {
      ScaledOrder(q, k, d);
    }
  }
}
