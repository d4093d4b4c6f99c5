/** What READ(6) and WRITE(6) promise about the images on the card: for one command, and over
    whole runs. */
module Storage {
  import opened Arithmetic
  import opened Bytes
  import opened Geometry
  import Fat
  import opened Filesystem
  import opened HostAdapters
  import opened Protocol

  /** The files on the card, which LUNs are started, and whether the card is mounted. */
  datatype Media = Media(files: map<Fat.FileName, seq<byte>>, started: seq<bool>, mounted: bool)

  function ImageFile(dir: byte, lun: nat): Fat.FileName { Fat.FileName(dir, lun, Fat.Dat) }

  function DescriptorFile(dir: byte, lun: nat): Fat.FileName { Fat.FileName(dir, lun, Fat.Dsc) }

  /** The 21-bit block address of a group 0 command. */
  function Lba6(data: seq<byte>): (lba: nat)
    requires |data| >= 4
    ensures lba < 0x20_0000
  {
    BigEndian(data[1] % 32, data[2], data[3])
  }

  /** The block count of READ(6) and WRITE(6): 0 means 256, section 9.2.5 of ANSI X3.131-1994. */
  function Blocks6(data: seq<byte>): (blocks: nat)
    requires |data| >= 5
    ensures 1 <= blocks <= 256
  {
    if data[4] == 0 then 256 else data[4]
  }

  /** The 32-bit block address of a group 1 command. */
  function Lba10(data: seq<byte>): (lba: uint32)
    requires |data| >= 6
  {
    var top: int := data[2];
    top * 0x100_0000 + BigEndian(data[3], data[4], data[5])
  }

  /** Bytes 1 to 4 of a block as a host makes it. */
  function Fields(lun: nat, lba: nat, n: nat): seq<int>
  {
    [lun * 32 + lba / 0x1_0000, lba / 0x100 % 0x100, lba % 0x100, n % 256]
  }

  /** The block as a host makes it: n blocks from block address `lba` of a LUN. The first byte
      names the command, and the last is the control byte. */
  predicate Asks(block: seq<byte>, lun: nat, lba: nat, n: nat)
  {
    && lun < LUNS && lba < 0x20_0000 && 1 <= n <= 256
    && |block| >= 6
    && block[1..5] == Fields(lun, lba, n)
  }

  /** What the host asks for is what the target understands. */
  lemma AsksDecodes(block: seq<byte>, lun: nat, lba: nat, n: nat)
    requires Asks(block, lun, lba, n)
    ensures LunOf(block) == lun && Lba6(block) == lba && Blocks6(block) == n
    ensures Offset6(block) == lba * SECTOR_SIZE && Window6(block) == n * SECTOR_SIZE
  {
    FirstFour(block);
    hide BigEndian;
    FieldsDecode(lun, lba, n);
  }

  lemma FirstFour(block: seq<byte>)
    requires |block| >= 6
    ensures block[1..5] == [block[1], block[2], block[3], block[4]]
  {
  }

  lemma FieldsDecode(lun: nat, lba: nat, n: nat)
    requires lun < 8 && lba < 0x20_0000 && 1 <= n <= 256
    ensures var f := Fields(lun, lba, n);
            && f[0] / 32 == lun && BigEndian(f[0] % 32, f[1], f[2]) == lba
            && n == if f[3] == 0 then 256 else f[3]
  {
    var high := lba / 0x1_0000;
    UniqueQuotient(lba, 0x20_0000, 0, lba);
    UniqueQuotient(lun * 32 + high, 32, lun, high);
    UniqueQuotient(high, 32, 0, high);
    AddressDecodes(lba);
  }

  /** Every block asks for something, and for one thing only. */
  lemma EveryBlockAsks(block: seq<byte>, lun: nat, lba: nat, n: nat)
    requires |block| >= 6
    ensures Asks(block, lun, lba, n) <==> lun == LunOf(block) && lba == Lba6(block) && n == Blocks6(block)
  {
    hide Asks, LunOf, Lba6, Blocks6;
    AsksForItsFields(block);
    if Asks(block, lun, lba, n) {
      AsksDecodes(block, lun, lba, n);
    }
  }

  lemma AsksForItsFields(block: seq<byte>)
    requires |block| >= 6
    ensures Asks(block, LunOf(block), Lba6(block), Blocks6(block))
  {
    FirstFour(block);
    hide Fields, BigEndian;
    FieldsEncode(block[1], block[2], block[3], block[4]);
  }

  lemma FieldsEncode(b1: nat, b2: nat, b3: nat, b4: nat)
    requires b1 < 0x100 && b2 < 0x100 && b3 < 0x100 && b4 < 0x100
    ensures var lba, n := BigEndian(b1 % 32, b2, b3), if b4 == 0 then 256 else b4;
            0 <= lba < 0x20_0000 && Fields(b1 / 32, lba, n) == [b1, b2, b3, b4]
  {
    AddressParts(b1 % 32, b2, b3);
    hide BigEndian;
    var q, r, n := b1 / 32, b1 % 32, if b4 == 0 then 256 else b4;
    assert b1 == q * 32 + r;
    UniqueQuotient(n, 256, if b4 == 0 then 1 else 0, b4);
  }

  lemma AddressParts(a: nat, b: nat, c: nat)
    requires a < 32 && b < 0x100 && c < 0x100
    ensures var lba := BigEndian(a, b, c);
            lba < 0x20_0000 && lba / 0x1_0000 == a && lba / 0x100 % 0x100 == b && lba % 0x100 == c
  {
    var lba := BigEndian(a, b, c);
    UniqueQuotient(lba, 0x1_0000, a, b * 0x100 + c);
    UniqueQuotient(lba, 0x100, a * 0x100 + b, c);
    UniqueQuotient(a * 0x100 + b, 0x100, a, b);
  }

  /** VERIFY takes all 32 bits of the address, high byte first. */
  lemma Lba10Decodes(block: seq<byte>, lba: uint32)
    requires |block| >= 6
    requires block[2..6] == [lba / 0x100_0000, lba / 0x1_0000 % 0x100, lba / 0x100 % 0x100, lba % 0x100]
    ensures Lba10(block) == lba
  {
    var fields := block[2..6];
    assert block[2] == fields[0] && block[3] == fields[1] && block[4] == fields[2] && block[5] == fields[3];
    var a := lba / 0x100;
    var b := a / 0x100;
    UniqueQuotient(lba, 0x1_0000, b, a % 0x100 * 0x100 + lba % 0x100);
    UniqueQuotient(lba, 0x100_0000, b / 0x100, b % 0x100 * 0x1_0000 + a % 0x100 * 0x100 + lba % 0x100);
  }

  /** Where in the image the addressed blocks begin, and how many bytes they are. */
  function Offset6(data: seq<byte>): nat
    requires |data| >= 4
  {
    Lba6(data) * SECTOR_SIZE
  }

  function Window6(data: seq<byte>): nat
    requires |data| >= 5
  {
    Blocks6(data) * SECTOR_SIZE
  }

  // ---- One transfer -----------------------------------------------------------------

  /** `sent` is what `image` holds from `offset` on, as far as the image goes. */
  ghost predicate Carries(sent: seq<byte>, image: seq<byte>, offset: nat)
  {
    forall b :: 0 <= b < |sent| && offset + b < |image| ==> sent[b] == image[offset + b]
  }

  lemma CarriesMore(sent: seq<byte>, image: seq<byte>, offset: nat, block: seq<byte>, k: nat)
    requires Carries(sent, image, offset) && k <= |block|
    requires forall b :: 0 <= b < |block| && offset + |sent| + b < |image| ==> block[b] == image[offset + |sent| + b]
    ensures Carries(sent + block[..k], image, offset)
  {
  }

  /** The bytes `d` have been written at `offset`, as far as an image that could grow by `growth`
      bytes holds them, and nothing else has changed; with no bytes written, nothing has. */
  ghost predicate Stored(before: seq<byte>, after: seq<byte>, offset: nat, d: seq<byte>, growth: nat)
  {
    (d == [] && after == before) || Patched(before, after, offset, d, |before| + growth)
  }

  /** The bytes of a data phase. */
  function Payload(events: seq<BusEvent>): (d: seq<byte>)
    ensures |d| == Max(|events| - 1, 0)
  {
    seq(Max(|events| - 1, 0), k requires 0 <= k < |events| - 1 =>
      var e := events[k + 1];
      if e.Phase? then 0 else e.value)
  }

  lemma PayloadIn(d: seq<byte>)
    ensures Payload([DATA_IN] + Drives(true, d)) == d && Payload([]) == []
  {
  }

  lemma PayloadOut(d: seq<byte>)
    ensures Payload([DATA_OUT] + Samples(false, d)) == d && Payload([]) == []
  {
  }

  /** READ(6) has sent bytes of the image, from the addressed block on; all of them when it
      succeeds. */
  ghost predicate Delivered(cdb: seq<byte>, events: seq<BusEvent>, succeeded: bool, image: seq<byte>)
  {
    && |cdb| == 12
    && Carries(Payload(events), image, Offset6(cdb))
    && |Payload(events)| <= Window6(cdb)
    && (succeeded ==> |Payload(events)| == Window6(cdb))
  }

  /** WRITE(6) has stored the first `blocks` blocks of what it has received, and they are all
      but the last: every block when it succeeds. */
  ghost predicate Committed(cdb: seq<byte>, events: seq<BusEvent>, succeeded: bool, blocks: nat, growth: nat,
                            before: seq<byte>, after: seq<byte>)
  {
    var received, d := Payload(events), blocks * SECTOR_SIZE;
    && |cdb| == 12 && blocks <= Blocks6(cdb)
    && d <= |received| <= d + SECTOR_SIZE
    && Stored(before, after, Offset6(cdb), received[..d], growth)
    && (succeeded ==> blocks == Blocks6(cdb) && |received| == d)
  }

  predicate Succeeds(t: Step)
  {
    t.post.Status? && t.status == 0
  }

  // ---- Runs -------------------------------------------------------------------------

  /** The step may change the image of the LUN. */
  predicate Writes(t: Step, lun: nat)
  {
    (t.pre.Write6? || t.pre.Format?) && t.lun == lun
  }

  /** A command knows the LUN for stopped exactly if it is; a started LUN has its image on the
      mounted card, and only a reset mounts a card. */
  ghost predicate MediaOk(t: Step, before: Media, after: Media, dir: byte)
  {
    && |before.started| == LUNS
    && (IsCommand(t.pre) && t.lun < LUNS ==> t.stopped == !before.started[t.lun])
    && (forall l :: 0 <= l < LUNS && before.started[l] ==> before.mounted && ImageFile(dir, l) in before.files)
    && (!t.reset ==> after.mounted == before.mounted)
  }

  /** What a step does to the images: only WRITE(6) and FORMAT change one, and only that of
      their LUN in the directory selected; none goes away. */
  ghost predicate ImagesOk(t: Step, before: Media, after: Media, dir: byte)
  {
    var name := ImageFile(dir, t.lun);
    && (forall n :: n in before.files && n.kind.Dat? ==>
          && n in after.files
          && (n.dir != dir || !Writes(t, n.lun) ==> after.files[n] == before.files[n]))
    && (t.pre.Read6? ==> !Succeeds(t) || name in before.files)
    && (t.pre.Read6? && name in before.files ==> Delivered(t.cdb, t.events, Succeeds(t), after.files[name]))
    && (t.pre.Write6? ==> (t.blocks == 0 && !Succeeds(t)) || name in before.files)
    && (t.pre.Write6? && name in before.files ==>
          Committed(t.cdb, t.events, Succeeds(t), t.blocks, t.growth, before.files[name], after.files[name]))
  }

  /** With no reset and no failure of FatFs, a transfer succeeds exactly if there is an image. */
  ghost predicate TransferOk(t: Step, before: Media, dir: byte)
  {
    (t.pre.Read6? || t.pre.Write6?) && !t.faulted && !t.reset ==>
      (Succeeds(t) <==> before.mounted && ImageFile(dir, t.lun) in before.files)
  }

  /** What a step does to the descriptors, if FatFs does not fail: only MODE SELECT changes one,
      and only that of its LUN, and MODE SENSE sends what is there. */
  ghost predicate DescriptorsOk(t: Step, before: Media, after: Media, dir: byte)
  {
    var name := DescriptorFile(dir, t.lun);
    var was := if name in before.files then before.files[name] else [];
    !t.faulted ==>
      && (forall n :: n in before.files && n.kind.Dsc? && (n.dir != dir || !t.pre.ModeSelect? || t.lun != n.lun) ==>
            n in after.files && after.files[n] == before.files[n])
      && (t.pre.ModeSelect? || t.pre.ModeSense? ==> |t.cdb| == 12)
      && (t.pre.ModeSelect? ==>
            && (t.cdb[4] != DSC_LENGTH ==> !Succeeds(t))
            && (t.cdb[4] == DSC_LENGTH && name in before.files ==> Succeeds(t))
            && (Succeeds(t) ==> name in after.files && Selected(t, was, after.files[name])))
      && (t.pre.ModeSense? ==>
            && (Succeeds(t) <==> t.cdb[4] == DSC_LENGTH && name in before.files)
            && (Succeeds(t) && |was| >= DSC_LENGTH ==> Payload(t.events) == was[..DSC_LENGTH]))
  }

  /** MODE SELECT has written what it has received over the front of the descriptor, as far as
      there was room. */
  ghost predicate Selected(t: Step, before: seq<byte>, after: seq<byte>)
  {
    var d := Payload(t.events);
    |d| == DSC_LENGTH && after == Fat.Overwrite(before, 0, d[..Min(DSC_LENGTH, |before| + t.growth)])
  }

  ghost predicate RoundOk(t: Step, before: Media, after: Media, dir: byte)
  {
    && MediaOk(t, before, after, dir) && ImagesOk(t, before, after, dir)
    && TransferOk(t, before, dir) && DescriptorsOk(t, before, after, dir)
  }

  /** `media` are the contents of the card before each step of a run, and after the last. */
  ghost predicate Documented(h: seq<Step>, media: seq<Media>, dir: byte)
  {
    && |media| == |h| + 1
    && forall i: nat :: i < |h| ==> RoundOk(h[i], media[i], media[i + 1], dir)
  }

  /** A reset after the step keeps the images, and the descriptors if FatFs does not fail. */
  lemma RoundThenReset(t: Step, faulted: bool, disturbed: bool, before: Media, between: Media, after: Media, dir: byte)
    requires RoundOk(t, before, between, dir) && (t.faulted ==> faulted)
    requires forall n :: n in between.files && n.kind.Dat? ==> n in after.files && after.files[n] == between.files[n]
    requires !faulted ==>
               forall n :: n in between.files && n.kind.Dsc? ==> n in after.files && after.files[n] == between.files[n]
    ensures RoundOk(t.(faulted := faulted, disturbed := disturbed, reset := true), before, after, dir)
  {
    hide Delivered, Committed;
  }

  lemma DocumentedGrows(h: seq<Step>, media: seq<Media>, dir: byte, t: Step, now: Media)
    requires Documented(h, media, dir) && RoundOk(t, media[|h|], now, dir)
    ensures Documented(h + [t], media + [now], dir)
  {
    forall i: nat | i < |h| + 1
      ensures RoundOk((h + [t])[i], (media + [now])[i], (media + [now])[i + 1], dir)
    {
      if i < |h| {
        assert RoundOk(h[i], media[i], media[i + 1], dir);
      }
    }
  }

  // ---- What the host can rely on --------------------------------------------------------

  /** Step j carries out a WRITE(6) or FORMAT that the host has sent to the LUN. */
  predicate WritesTo(h: seq<Step>, j: nat, lun: nat)
    requires j < |h|
  {
    (h[j].pre.Write6? || h[j].pre.Format?) && SentTo(h, j) == lun
  }

  /** Step j works with the LUN, the address and the count the host has asked for. */
  lemma WorksAsAsked(h: seq<Step>, j: nat, lun: nat, lba: nat, n: nat)
    requires Run(h) && j < |h| && Executing(h[j].pre) && Asks(Block(h, j), lun, lba, n)
    ensures |h[j].cdb| == 12 && h[j].lun == lun == SentTo(h, j)
    ensures Offset6(h[j].cdb) == lba * SECTOR_SIZE
    ensures Window6(h[j].cdb) == n * SECTOR_SIZE && Blocks6(h[j].cdb) == n
  {
    hide Run, Block, Asks;
    ExecutesReceived(h, j);
    AsksDecodes(Block(h, j), lun, lba, n);
    SameFields(Block(h, j), h[j].cdb);
  }

  lemma SameFields(received: seq<byte>, cdb: seq<byte>)
    requires 6 <= |received| && received <= cdb
    ensures Offset6(cdb) == Offset6(received) && Window6(cdb) == Window6(received) && Blocks6(cdb) == Blocks6(received)
  {
  }

  /** A command that is not INQUIRY fails without recording an error exactly if it is a VERIFY
      sent to a LUN that is stopped. */
  lemma SilentFailures(h: seq<Step>, media: seq<Media>, dir: byte, k: nat)
    requires Run(h) && Documented(h, media, dir) && k < |h|
    requires IsCommand(h[k].pre) && h[k].post.Status?
    ensures |media[k].started| == LUNS
    ensures h[k].status != 0 && !h[k].action.Recorded? <==> h[k].pre.Verify? && !media[k].started[SentTo(h, k)]
  {
    hide SentTo;
    assert StepOk(h, k) && RoundOk(h[k], media[k], media[k + 1], dir);
    ExecutesReceived(h, k);
  }

  /** An image stays as it is until the host sends the next WRITE(6) or FORMAT to its LUN,
      whatever else it does, and however often it resets. */
  lemma {:induction false} ImagePersists(h: seq<Step>, media: seq<Media>, dir: byte, k: nat, i: nat, name: Fat.FileName)
    requires Run(h) && Documented(h, media, dir) && k <= i <= |h|
    requires name in media[k].files && name.kind.Dat?
    requires forall j: nat :: k <= j < i ==> name.dir != dir || !WritesTo(h, j, name.lun)
    ensures name in media[i].files && media[i].files[name] == media[k].files[name]
    decreases i - k
  {
    if k < i {
      hide Run, Delivered, Committed, SentTo;
      ImagePersists(h, media, dir, k, i - 1, name);
      assert RoundOk(h[i - 1], media[i - 1], media[i], dir);
      assert name.dir != dir || !WritesTo(h, i - 1, name.lun);
      if Executing(h[i - 1].pre) {
        ExecutesReceived(h, i - 1);
      }
    }
  }

  /** The blocks a WRITE(6) to block `lba` has handed to the card are in the image, all of them,
      exactly if they fit: up to the size of the image, and as much further as the image could
      grow. No other byte changes. */
  lemma WriteIsExact(h: seq<Step>, media: seq<Media>, dir: byte, k: nat, lun: nat, lba: nat, n: nat)
    requires Run(h) && Documented(h, media, dir) && k < |h|
    requires h[k].pre.Write6? && h[k].blocks > 0 && Asks(Block(h, k), lun, lba, n)
    ensures ImageFile(dir, lun) in media[k].files && ImageFile(dir, lun) in media[k + 1].files
    ensures h[k].blocks <= n && h[k].blocks * SECTOR_SIZE <= |Payload(h[k].events)|
    ensures var name, offset := ImageFile(dir, lun), lba * SECTOR_SIZE;
            var d := Payload(h[k].events)[..h[k].blocks * SECTOR_SIZE];
            var before, after := media[k].files[name], media[k + 1].files[name];
            && (offset + |d| <= |after| && after[offset..offset + |d|] == d
                <==> offset + |d| <= |before| + h[k].growth)
            && |after| == Max(|before|, Min(offset + |d|, |before| + h[k].growth))
            && forall i :: 0 <= i < |before| && !(offset <= i < offset + |d|) ==> after[i] == before[i]
  {
    hide Payload, Offset6, Window6, Blocks6, SentTo, Run, Block, Asks, DescriptorsOk, MediaOk, TransferOk;
    assert RoundOk(h[k], media[k], media[k + 1], dir);
    WorksAsAsked(h, k, lun, lba, n);
    var d := Payload(h[k].events)[..h[k].blocks * SECTOR_SIZE];
    assert |d| > 0;
  }

  /** A request inside the image is never affected by a full volume. */
  lemma WriteInsideImage(h: seq<Step>, media: seq<Media>, dir: byte, k: nat, lun: nat, lba: nat, n: nat)
    requires Run(h) && Documented(h, media, dir) && k < |h|
    requires h[k].pre.Write6? && h[k].blocks > 0 && Asks(Block(h, k), lun, lba, n)
    requires ImageFile(dir, lun) in media[k].files ==>
               (lba + n) * SECTOR_SIZE <= |media[k].files[ImageFile(dir, lun)]|
    ensures ImageFile(dir, lun) in media[k].files && ImageFile(dir, lun) in media[k + 1].files
    ensures h[k].blocks <= n && h[k].blocks * SECTOR_SIZE <= |Payload(h[k].events)|
    ensures var name, offset := ImageFile(dir, lun), lba * SECTOR_SIZE;
            var d := Payload(h[k].events)[..h[k].blocks * SECTOR_SIZE];
            offset + |d| <= |media[k].files[name]|
            && media[k + 1].files[name] == Fat.Overwrite(media[k].files[name], offset, d)
  {
    hide Payload, Run, Block, Asks, RoundOk;
    WriteIsExact(h, media, dir, k, lun, lba, n);
    var name, offset := ImageFile(dir, lun), lba * SECTOR_SIZE;
    var d := Payload(h[k].events)[..h[k].blocks * SECTOR_SIZE];
    SameAround(media[k].files[name], media[k + 1].files[name], offset, d);
  }

  lemma SameAround(before: seq<byte>, after: seq<byte>, offset: nat, d: seq<byte>)
    requires offset + |d| <= |before| == |after| && after[offset..offset + |d|] == d
    requires forall i :: 0 <= i < |before| && !(offset <= i < offset + |d|) ==> after[i] == before[i]
    ensures after == Fat.Overwrite(before, offset, d)
  {
    assert after == after[..offset] + after[offset..offset + |d|] + after[offset + |d|..];
    assert after[..offset] == before[..offset] && after[offset + |d|..] == before[offset + |d|..];
  }

  /** What a WRITE(6) has stored of a block, whether it was carried through or not, is what the
      next READ(6) of the block sends: byte `p` of the image, if it lies in the blocks stored
      and in those sent, and if it is one the image had or could grow by. */
  lemma ReadsWhatWasWritten(h: seq<Step>, media: seq<Media>, dir: byte, k: nat, i: nat, lun: nat,
                            lba: nat, n: nat, lba': nat, n': nat, p: nat)
    requires Run(h) && Documented(h, media, dir) && k < i < |h|
    requires h[k].pre.Write6? && Asks(Block(h, k), lun, lba, n)
    requires h[i].pre.Read6? && Asks(Block(h, i), lun, lba', n')
    requires forall j: nat :: k < j < i ==> !WritesTo(h, j, lun)
    requires ImageFile(dir, lun) in media[k].files ==> p < |media[k].files[ImageFile(dir, lun)]| + h[k].growth
    requires lba * SECTOR_SIZE <= p < (lba + h[k].blocks) * SECTOR_SIZE
    requires lba' * SECTOR_SIZE <= p < lba' * SECTOR_SIZE + |Payload(h[i].events)|
    ensures p - lba * SECTOR_SIZE < |Payload(h[k].events)|
    ensures Payload(h[i].events)[p - lba' * SECTOR_SIZE] == Payload(h[k].events)[p - lba * SECTOR_SIZE]
  {
    hide Payload, Offset6, Window6, Blocks6, SentTo, Run, Block, WritesTo, Asks, DescriptorsOk, MediaOk, TransferOk;
    var name := ImageFile(dir, lun);
    assert RoundOk(h[k], media[k], media[k + 1], dir) && RoundOk(h[i], media[i], media[i + 1], dir);
    WorksAsAsked(h, k, lun, lba, n);
    WorksAsAsked(h, i, lun, lba', n');
    ImagePersists(h, media, dir, k + 1, i, name);
    var image, stored := media[i + 1].files[name], Payload(h[k].events)[..h[k].blocks * SECTOR_SIZE];
    var offset := lba * SECTOR_SIZE;
    assert Patched(media[k].files[name], image, offset, stored, |media[k].files[name]| + h[k].growth);
    assert image[p] == stored[p - offset];
  }

  /** READ(6) sends back all that a WRITE(6) to the same blocks took, if both succeed and the
      blocks lie inside the image. */
  lemma RoundTrip(h: seq<Step>, media: seq<Media>, dir: byte, k: nat, i: nat, lun: nat, lba: nat, n: nat)
    requires Run(h) && Documented(h, media, dir) && k < i < |h|
    requires h[k].pre.Write6? && Asks(Block(h, k), lun, lba, n) && Succeeds(h[k])
    requires h[i].pre.Read6? && Asks(Block(h, i), lun, lba, n) && Succeeds(h[i])
    requires forall j: nat :: k < j < i ==> !WritesTo(h, j, lun)
    requires ImageFile(dir, lun) in media[k].files ==>
               (lba + n) * SECTOR_SIZE <= |media[k].files[ImageFile(dir, lun)]|
    ensures Payload(h[i].events) == Payload(h[k].events) && |Payload(h[k].events)| == n * SECTOR_SIZE
  {
    hide Payload, Offset6, Window6, Blocks6, Carries, Stored, SentTo, Run, Block, WritesTo, Asks, DescriptorsOk,
         MediaOk, TransferOk;
    assert RoundOk(h[k], media[k], media[k + 1], dir) && RoundOk(h[i], media[i], media[i + 1], dir);
    WorksAsAsked(h, k, lun, lba, n);
    WorksAsAsked(h, i, lun, lba, n);
    ImagePersists(h, media, dir, k + 1, i, ImageFile(dir, lun));
    forall b | 0 <= b < n * SECTOR_SIZE
      ensures Payload(h[i].events)[b] == Payload(h[k].events)[b]
    {
      ReadsWhatWasWritten(h, media, dir, k, i, lun, lba, n, lba, n, lba * SECTOR_SIZE + b);
    }
  }

  /** READ(6) of blocks inside the image sends nothing but the image, however it ends. A READ(6)
      that succeeds sends what the image holds at the blocks addressed exactly if they lie inside
      the image. */
  lemma ReadIsExact(h: seq<Step>, media: seq<Media>, dir: byte, i: nat, lun: nat, lba: nat, n: nat)
    requires Run(h) && Documented(h, media, dir) && i < |h|
    requires h[i].pre.Read6? && Asks(Block(h, i), lun, lba, n)
    ensures Succeeds(h[i]) ==> ImageFile(dir, lun) in media[i].files && |Payload(h[i].events)| == n * SECTOR_SIZE
    ensures ImageFile(dir, lun) in media[i].files ==>
              var image, offset, sent := media[i].files[ImageFile(dir, lun)], lba * SECTOR_SIZE, Payload(h[i].events);
              && ((lba + n) * SECTOR_SIZE <= |image| ==>
                    offset + |sent| <= |image| && sent == image[offset..offset + |sent|])
              && (Succeeds(h[i]) && offset + |sent| <= |image| && sent == image[offset..offset + |sent|] ==>
                    (lba + n) * SECTOR_SIZE <= |image|)
  {
    hide Payload, Offset6, Window6, SentTo, Run, Block, Asks, DescriptorsOk, MediaOk, TransferOk;
    assert RoundOk(h[i], media[i], media[i + 1], dir);
    WorksAsAsked(h, i, lun, lba, n);
  }

  // ---- When commands succeed --------------------------------------------------------------

  /** A READ(6) or WRITE(6) that no reset cuts short, and in which FatFs does not fail, succeeds
      exactly if the card is mounted and has an image of the LUN. */
  lemma TransferSucceeds(h: seq<Step>, media: seq<Media>, dir: byte, i: nat)
    requires Run(h) && Documented(h, media, dir) && i < |h|
    requires (h[i].pre.Read6? || h[i].pre.Write6?) && !h[i].faulted && !h[i].reset
    ensures Succeeds(h[i]) <==> media[i].mounted && ImageFile(dir, SentTo(h, i)) in media[i].files
  {
    hide Run, SentTo;
    assert RoundOk(h[i], media[i], media[i + 1], dir);
    ExecutesReceived(h, i);
  }

  /** A started LUN serves every READ(6) and WRITE(6), unless FatFs fails or the host pulls the
      reset line or leaves a byte unacknowledged. */
  lemma StartedLunServes(h: seq<Step>, media: seq<Media>, dir: byte, i: nat)
    requires Run(h) && Documented(h, media, dir) && i < |h|
    requires h[i].pre.Read6? || h[i].pre.Write6?
    ensures |media[i].started| == LUNS
    ensures media[i].started[SentTo(h, i)] && !Succeeds(h[i]) ==> h[i].faulted || h[i].disturbed
  {
    hide SentTo, Run, ImagesOk, DescriptorsOk, Asks;
    assert RoundOk(h[i], media[i], media[i + 1], dir);
    if h[i].reset {
      ResetIsCaused(h, i);
    } else if !h[i].faulted {
      TransferSucceeds(h, media, dir, i);
    }
  }

  lemma ResetIsCaused(h: seq<Step>, i: nat)
    requires Run(h) && i < |h| && h[i].reset && Executing(h[i].pre)
    ensures h[i].disturbed
  {
    assert StepOk(h, i);
  }

  /** As long as no reset comes, the card stays mounted if it is. */
  lemma {:induction false} MountPersists(h: seq<Step>, media: seq<Media>, dir: byte, k: nat, i: nat)
    requires Documented(h, media, dir) && k <= i <= |h|
    requires forall j :: k <= j < i ==> !h[j].reset
    ensures media[i].mounted == media[k].mounted
    decreases i - k
  {
    if k < i {
      MountPersists(h, media, dir, k, i - 1);
      hide ImagesOk, DescriptorsOk, TransferOk;
      assert RoundOk(h[i - 1], media[i - 1], media[i], dir);
    }
  }

  /** Data is safe: what the host writes to blocks inside an image it reads back, both commands
      succeeding, if no reset comes from the one to the other, FatFs fails in neither, and nothing
      else is written to the LUN. */
  lemma WrittenIsReadBack(h: seq<Step>, media: seq<Media>, dir: byte, k: nat, i: nat, lun: nat, lba: nat, n: nat)
    requires Run(h) && Documented(h, media, dir) && k < i < |h|
    requires h[k].pre.Write6? && Asks(Block(h, k), lun, lba, n)
    requires h[i].pre.Read6? && Asks(Block(h, i), lun, lba, n)
    requires forall j: nat :: k < j < i ==> !WritesTo(h, j, lun)
    requires forall j :: k <= j <= i ==> !h[j].reset
    requires !h[k].faulted && !h[i].faulted
    requires media[k].mounted && ImageFile(dir, lun) in media[k].files
    requires (lba + n) * SECTOR_SIZE <= |media[k].files[ImageFile(dir, lun)]|
    ensures Succeeds(h[k]) && Succeeds(h[i])
    ensures Payload(h[i].events) == Payload(h[k].events) && |Payload(h[k].events)| == n * SECTOR_SIZE
  {
    hide Run, Asks, Block, SentTo, WritesTo, Payload, Succeeds;
    WorksAsAsked(h, k, lun, lba, n);
    WorksAsAsked(h, i, lun, lba, n);
    TransferSucceeds(h, media, dir, k);
    assert RoundOk(h[k], media[k], media[k + 1], dir);
    ImagePersists(h, media, dir, k + 1, i, ImageFile(dir, lun));
    MountPersists(h, media, dir, k, i);
    TransferSucceeds(h, media, dir, i);
    RoundTrip(h, media, dir, k, i, lun, lba, n);
  }

  // ---- Descriptors over runs ----------------------------------------------------------------

  /** Step j carries out a MODE SELECT that the host has sent to the LUN. */
  predicate Describes(h: seq<Step>, j: nat, lun: nat)
    requires j < |h|
  {
    h[j].pre.ModeSelect? && SentTo(h, j) == lun
  }

  /** A descriptor stays as it is until the host sends the next MODE SELECT to its LUN, as long as
      FatFs does not fail, and however often the host resets. */
  lemma {:induction false} DescriptorPersists(h: seq<Step>, media: seq<Media>, dir: byte, k: nat, i: nat, lun: nat)
    requires Run(h) && Documented(h, media, dir) && k <= i <= |h|
    requires DescriptorFile(dir, lun) in media[k].files
    requires forall j: nat :: k <= j < i ==> !h[j].faulted && !Describes(h, j, lun)
    ensures DescriptorFile(dir, lun) in media[i].files
    ensures media[i].files[DescriptorFile(dir, lun)] == media[k].files[DescriptorFile(dir, lun)]
    decreases i - k
  {
    if k < i {
      hide Run, ImagesOk, MediaOk, TransferOk, SentTo, Selected, Payload;
      DescriptorPersists(h, media, dir, k, i - 1, lun);
      assert RoundOk(h[i - 1], media[i - 1], media[i], dir);
      assert !h[i - 1].faulted && !Describes(h, i - 1, lun);
      if Executing(h[i - 1].pre) {
        ExecutesReceived(h, i - 1);
      }
    }
  }

  /** MODE SENSE sends back the 22 bytes the last MODE SELECT has stored, if there was room for
      them and FatFs does not fail. */
  lemma SelectedIsSensed(h: seq<Step>, media: seq<Media>, dir: byte, k: nat, i: nat, lun: nat)
    requires Run(h) && Documented(h, media, dir) && k < i < |h|
    requires Describes(h, k, lun) && Succeeds(h[k])
    requires h[i].pre.ModeSense? && SentTo(h, i) == lun && |Block(h, i)| >= 6 && Block(h, i)[4] == DSC_LENGTH
    requires forall j: nat :: k <= j <= i ==> !h[j].faulted && (k < j < i ==> !Describes(h, j, lun))
    requires DSC_LENGTH <= h[k].growth
             || (DescriptorFile(dir, lun) in media[k].files
                 && DSC_LENGTH <= |media[k].files[DescriptorFile(dir, lun)]| + h[k].growth)
    ensures Succeeds(h[i]) && |Payload(h[k].events)| == DSC_LENGTH
    ensures Payload(h[i].events) == Payload(h[k].events)
  {
    hide Run, ImagesOk, MediaOk, TransferOk, Payload, Succeeds, Block;
    ExecutesReceived(h, k);
    ExecutesReceived(h, i);
    assert RoundOk(h[k], media[k], media[k + 1], dir) && RoundOk(h[i], media[i], media[i + 1], dir);
    DescriptorPersists(h, media, dir, k + 1, i, lun);
    var was := if DescriptorFile(dir, lun) in media[k].files then media[k].files[DescriptorFile(dir, lun)] else [];
    FrontOverwritten(was, Payload(h[k].events), Min(DSC_LENGTH, |was| + h[k].growth));
  }

  lemma FrontOverwritten(before: seq<byte>, d: seq<byte>, n: nat)
    requires n == |d|
    ensures |Fat.Overwrite(before, 0, d[..n])| >= n && Fat.Overwrite(before, 0, d[..n])[..n] == d
  {
  }

  // ---- Two runs ---------------------------------------------------------------------------

  /** A card with an empty image of LUN 0, which is started. */
  const EMPTY: Media := Media(map[ImageFile(0, 0) := []], seq(LUNS, l => l == 0), true)

  /** A step between commands leaves the card as it is. */
  lemma NothingDone(t: Step)
    requires !Executing(t.pre)
    ensures RoundOk(t, EMPTY, EMPTY, 0)
  {
  }

  /** The runs below: power-up, selection, a command block, and a last step. */
  lemma AfterPrelude(cdb: seq<byte>, t: Step) returns (h: seq<Step>, media: seq<Media>)
    requires WholeBlock(cdb) && |cdb| == 6 && IsCommand(Decode(cdb)) && t.pre == Decode(cdb) && !t.pre.RequestSense?
    requires LegalStep(t, false) && Obeys(t, cdb) && !t.reset && t.polls == []
    requires RoundOk(t, EMPTY, EMPTY, 0)
    ensures Run(h) && Documented(h, media, 0) && |h| == 4 && h[3] == t
    ensures media == [EMPTY, EMPTY, EMPTY, EMPTY, EMPTY]
  {
    hide Run, Received, Io, Prelude, RoundOk, LegalStep, Obeys;
    PreludeRuns(cdb);
    PreludeLength(cdb);
    var start := Prelude(cdb);
    h := Then(start, t);
    media := [EMPTY, EMPTY, EMPTY, EMPTY, EMPTY];
    forall i: nat | i < 4
      ensures RoundOk(h[i], EMPTY, EMPTY, 0)
    {
      if i < 3 {
        assert h[i] == start[i];
        NothingDone(h[i]);
      }
    }
  }

  /** A run past the end of an image: READ(6) of one block of an empty image sends any bytes at
      all, with good status. */
  lemma ReadPastTheEnd(sent: seq<byte>) returns (h: seq<Step>, media: seq<Media>)
    requires |sent| == SECTOR_SIZE
    ensures Run(h) && Documented(h, media, 0) && |h| == 4
    ensures h[3].pre.Read6? && Succeeds(h[3]) && Payload(h[3].events) == sent
    ensures |media| == 5 && ImageFile(0, 0) in media[3].files && media[3].files[ImageFile(0, 0)] == []
  {
    hide Payload, Drives, Run, Documented;
    var cdb, events := [8, 0, 0, 0, 1, 0], [DATA_IN] + Drives(true, sent);
    PayloadIn(sent);
    InIsDataIn(sent);
    h, media := AfterPrelude(cdb, Between(Read6, Status, events, cdb + cdb));
  }

  lemma InIsDataIn(d: seq<byte>)
    ensures DataIn([DATA_IN] + Drives(true, d))
  {
  }

  /** A run on a full volume: WRITE(6) of one block to an empty image that cannot grow. Good
      status, and nothing of it is in the image. */
  lemma FullVolumeLosesData(d: seq<byte>) returns (h: seq<Step>, media: seq<Media>)
    requires |d| == SECTOR_SIZE
    ensures Run(h) && Documented(h, media, 0) && |h| == 4
    ensures h[3].pre.Write6? && Succeeds(h[3]) && h[3].blocks == 1 && Payload(h[3].events) == d
    ensures |media| == 5 && ImageFile(0, 0) in media[4].files && media[4].files[ImageFile(0, 0)] == []
  {
    hide Payload, Samples, Run, Documented;
    var cdb, events := [0x0A, 0, 0, 0, 1, 0], [DATA_OUT] + Samples(false, d);
    PayloadOut(d);
    OutIsDataOut(d);
    assert d[..SECTOR_SIZE] == d;
    h, media := AfterPrelude(cdb, Between(Write6, Status, events, cdb + cdb).(blocks := 1));
  }

  lemma OutIsDataOut(d: seq<byte>)
    ensures DataOut([DATA_OUT] + Samples(false, d))
  {
  }
}
