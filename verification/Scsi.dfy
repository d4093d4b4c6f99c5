/** The SCSI target: scsi.c. */
module Scsi {
  import opened Arithmetic
  import opened Bytes
  import opened Geometry
  import Fat
  import opened Filesystem
  import opened HostAdapters
  import opened Protocol
  import opened Storage

  datatype TransferPhase = DataOutPhase | DataInPhase | CommandPhase | StatusPhase | MessageOutPhase | MessageInPhase

  lemma NoSegment(io: bool)
    ensures DataPhase([]) && IoAfter([], io) == io
  {
  }

  lemma DataInSegment(d: seq<byte>, io: bool, bus: seq<BusEvent>)
    ensures (bus + [DATA_IN]) + Drives(true, d) == bus + ([DATA_IN] + Drives(true, d))
    ensures DataPhase([DATA_IN] + Drives(true, d)) && IoAfter([DATA_IN] + Drives(true, d), io)
  {
    IoAfterPhase([DATA_IN] + Drives(true, d), io);
  }

  lemma DataOutSegment(d: seq<byte>, io: bool, bus: seq<BusEvent>)
    ensures (bus + [DATA_OUT]) + Samples(false, d) == bus + ([DATA_OUT] + Samples(false, d))
    ensures DataPhase([DATA_OUT] + Samples(false, d)) && !IoAfter([DATA_OUT] + Samples(false, d), io)
  {
    IoAfterPhase([DATA_OUT] + Samples(false, d), io);
  }

  class Target {
    const fs: FileSystem
    const host: HostAdapter
    /** scsiSectorBuffer */
    const buffer: array<byte>
    var state: ScsiState
    var selFlag: bool
    // commandDataBlock
    var data: seq<byte>
    var length: nat
    var lun: nat
    var status: byte
    var message: byte
    /** requestSenseData */
    var sense: seq<SenseData>

    ghost predicate Wired()
      reads this`data, this`length, this`lun, this`message, this`sense, this`selFlag
    {
      && buffer.Length == SECTOR_SIZE && buffer != fs.sectorBuffer
      && |data| == 12 && length <= 10 && lun == LunOf(data) && |sense| == LUNS && message == 0 && !selFlag
    }

    /** What every command finds and leaves: no LUN image open, every started LUN usable. Nothing
        in the source ever sets selFlag. */
    ghost predicate Able()
      reads this`data, this`length, this`lun, this`message, this`sense, this`selFlag
      reads host`databusOutput, host`io, host`settled, fs, fs.vol
    {
      Wired() && host.Valid() && fs.Ready()
    }

    /** What every command does: at most one data phase on the bus, at most one change of the
        sense data of its own LUN, and on to the status phase, or to bus free if the host has
        reset. */
    twostate predicate Executed(next: ScsiState, act: Action, seg: seq<BusEvent>)
      reads this, host, fs, fs.vol
    {
      && Able()
      && host.bus == old(host.bus) + seg && DataPhase(seg) && host.io == IoAfter(seg, old(host.io))
      && host.Steady()
      && (next.Status? || (next.BusFree? && host.nrstFlag))
      && (act.NoAction? || act.lun == lun) && |old(sense)| == LUNS && sense == Noted(old(sense), act)
      && Reportable(act)
      && fs.lunDirectory == old(fs.lunDirectory) && fs.mounted == old(fs.mounted)
      && fs.vol.faults >= old(fs.vol.faults)
    }

    /** There was an image of the LUN on a mounted card. */
    twostate predicate HadImage()
      reads this`lun, fs`lunDirectory
    {
      old(fs.mounted) && fs.Image(lun) in old(fs.vol.files)
    }

    twostate predicate HadDescriptor()
      reads this`lun, fs`lunDirectory
    {
      fs.Descriptor(lun) in old(fs.vol.files)
    }

    /** Bad status comes with an error on record. */
    ghost predicate Accounted(next: ScsiState, act: Action)
      reads this`status, this`lun
    {
      next.Status? && status != 0 ==> status == CheckCondition(lun) && act.Recorded?
    }

    /** hostadapterInitialise, filesystemInitialise and scsiInitialise. */
    constructor (card: Fat.Volume, bufferLength: nat)
      requires card.Valid() && card.Released() && bufferLength >= 1
      modifies card
      ensures Able() && fs.vol == card
      ensures fresh(fs) && fresh(host) && fresh(buffer) && fresh(fs.sectorBuffer)
      ensures state == BusFree && status == 0 && host.io && !host.nrstFlag && host.bus == []
      ensures !host.busy && host.polls == []
      ensures card.faults >= old(card.faults)
      ensures card.faults == old(card.faults) ==>
                fs.mounted && (fs.started[0] <==> Fat.FileName(0, 0, Fat.Dat) in card.files)
      ensures forall l :: 0 <= l < LUNS ==> sense[l] == NO_SENSE
    {
      var files := new FileSystem(card, bufferLength);
      var adapter := new HostAdapter();
      fs, host := files, adapter;
      buffer := new byte[SECTOR_SIZE](_ => 0);
      state, selFlag := BusFree, false;
      data, length, lun, status, message := seq(12, _ => 0), 0, 0, 0, 0;
      sense := seq(LUNS, _ => NO_SENSE);
      new;
      var mounted := fs.Mount();
    }

    /** scsiInformationTransferPhase */
    method InformationTransferPhase(phase: TransferPhase)
      modifies host
      ensures host.Valid() && host.Steady() && host.nrstFlag == old(host.nrstFlag)
      ensures host.bus == old(host.bus) + [match phase
                case DataOutPhase => DATA_OUT
                case DataInPhase => DATA_IN
                case CommandPhase => COMMAND
                case StatusPhase => STATUS
                case MessageOutPhase => Phase(true, true, false)
                case MessageInPhase => MESSAGE_IN]
      ensures host.io <==> phase.DataInPhase? || phase.StatusPhase? || phase.MessageInPhase?
    {
      match phase
      case DataOutPhase => host.WriteDataPhaseFlags(false, false, false);
      case DataInPhase => host.WriteDataPhaseFlags(false, false, true);
      case CommandPhase => host.WriteDataPhaseFlags(false, true, false);
      case StatusPhase => host.WriteDataPhaseFlags(false, true, true);
      case MessageOutPhase => host.WriteDataPhaseFlags(true, true, false);
      case MessageInPhase => host.WriteDataPhaseFlags(true, true, true);
    }

    method Good()
      modifies this`status, this`message
      ensures status == 0 && message == 0
    {
      status, message := 0, 0;
    }

    /** Bad status, and an error without an address on record. */
    method Fail(errorClass: byte, errorCode: byte) returns (ghost act: Action)
      requires Wired()
      modifies this`status, this`message, this`sense
      ensures Wired() && status == CheckCondition(lun)
      ensures act == Recorded(lun, SenseData(true, false, errorClass, errorCode, 0))
      ensures sense == Noted(old(sense), act)
      ensures errorClass % 8 != 0 || errorCode % 16 != 0 ==> Reportable(act)
    {
      status := lun * 32 + 2;
      message := 0;
      sense := sense[lun := SenseData(true, false, errorClass, errorCode, 0)];
      act := Recorded(lun, SenseData(true, false, errorClass, errorCode, 0));
    }

    // ---- Commands without a data phase --------------------------------------------------

    /** TEST UNIT READY, and REZERO UNIT and SEEK, which do the same. */
    method CommandTestUnitReady() returns (next: ScsiState, ghost act: Action)
      requires Able()
      modifies this`status, this`message, this`sense
      ensures Executed(next, act, []) && Accounted(next, act)
      ensures next.Status?
      ensures status == 0 <==> fs.started[lun]
      ensures status != 0 ==> act == Recorded(lun, SenseData(true, false, 0x00, 0x02, 0))
    {
      NoSegment(host.io);
      act := NoAction;
      if fs.ReadLunStatus(lun) {
        Good();
      } else {
        act := Fail(0x00, 0x02);
      }
      return Status, act;
    }

    method CommandStartStop() returns (next: ScsiState, ghost act: Action)
      requires Able()
      modifies this`status, this`message, this`sense, fs, fs.vol, fs.sectorBuffer
      ensures Executed(next, act, []) && Accounted(next, act)
      ensures next.Status? && fs.OnlyChanged(fs.Descriptor(lun))
      ensures status == 0 ==> fs.started == old(fs.started)[lun := data[4] != 0]
      ensures status != 0 ==> fs.started == old(fs.started) && data[4] != 0 && !fs.started[lun]
      ensures status != 0 ==> act == Recorded(lun, SenseData(true, false, 0x02, 0x24, 0))
      ensures fs.NoFault() && data[4] != 0 ==> (status == 0 <==> HadImage())
      ensures fs.NoFault() && data[4] != 0 && status == 0 && !old(fs.started)[lun] ==> fs.DescriptorSeenTo(lun)
      ensures fs.NoFault() ==> fs.DescriptorsKept()
    {
      NoSegment(host.io);
      act := NoAction;
      if data[4] == 0 {
        var stopped := fs.SetLunStatus(lun, false);
      } else {
        var started := fs.SetLunStatus(lun, true);
        if !started {
          act := Fail(0x02, 0x24);
          return Status, act;
        }
      }
      Good();
      return Status, act;
    }

    // ---- REQUEST SENSE ------------------------------------------------------------------

    method CommandRequestSense() returns (next: ScsiState, ghost act: Action, ghost seg: seq<BusEvent>)
      requires Able()
      modifies this`status, this`message, this`sense, host
      ensures Executed(next, act, seg) && next.Status? && status == 0
      ensures act == Reported(lun)
      ensures seg == [DATA_IN] + Drives(true, EncodeSense(old(sense)[lun]))
    {
      hide EncodeSense, DataPhase, IoAfter;
      ghost var io := host.io;
      InformationTransferPhase(DataInPhase);
      var reply := SenseReply();
      host.WriteAll(reply);
      sense := sense[lun := NO_SENSE];
      Good();
      DataInSegment(reply, io, old(host.bus));
      seg := [DATA_IN] + Drives(true, reply);
      return Status, Reported(lun), seg;
    }

    /** The four reply bytes. */
    method SenseReply() returns (reply: seq<byte>)
      requires Wired()
      ensures reply == EncodeSense(sense[lun])
    {
      var s := sense[lun];
      if !s.errorFlag {
        return [0, 0, 0, 0];
      }
      var responseByte: int := 0;
      if s.validAddress {
        responseByte := 128;
      }
      var errorClass: int, errorCode: int := s.errorClass, s.errorCode;
      responseByte := responseByte + errorClass % 8 * 16;
      responseByte := responseByte + errorCode % 16;
      return [responseByte, s.lba / 0x1_0000 % 32, s.lba / 0x100 % 0x100, s.lba % 0x100];
    }

    // ---- Commands that use the descriptor -------------------------------------------------

    /** `dsc` is the descriptor the reply was made from; `read` says that it is the one on the
        card. With a head count of zero the source divides by it, and the reply is
        arbitrary. */
    method CommandTranslate()
      returns (next: ScsiState, ghost act: Action, ghost seg: seq<BusEvent>, ghost dsc: seq<byte>, ghost read: bool)
      requires Able()
      modifies this`status, this`message, this`sense, buffer, host, fs, fs.vol
      ensures Executed(next, act, seg) && Accounted(next, act)
      ensures next.Status? && fs.vol.files == old(fs.vol.files)
      ensures !old(fs.started[lun]) ==> status != 0
      ensures |dsc| == DSC_LENGTH && (read ==> fs.Descriptor(lun) in fs.vol.files)
      ensures read && |fs.vol.files[fs.Descriptor(lun)]| >= DSC_LENGTH ==>
                dsc == fs.vol.files[fs.Descriptor(lun)][..DSC_LENGTH]
      ensures status == 0 && Heads(dsc) >= 1 ==>
                seg == [DATA_IN] + Drives(true, TranslateReply(Lba6(data), Heads(dsc)))
      ensures fs.NoFault() ==> (status == 0 <==> old(fs.started)[lun] && HadDescriptor())
      ensures fs.NoFault() && status == 0 ==> read
    {
      hide DataPhase, IoAfter, FileSystem.Ready, FileSystem.Valid, EncodeSense, Drives, Heads, Lba6, TranslateReply,
           HostAdapter.Valid;
      NoSegment(host.io);
      act, seg, dsc, read := NoAction, [], seq(DSC_LENGTH, _ => 0), false;
      if !fs.ReadLunStatus(lun) {
        act := Fail(0x00, 0x04);
        return Status, act, seg, dsc, read;
      }
      next, act, seg, dsc, read := TranslateStarted();
    }

    /** TRANSLATE on a started LUN. */
    method TranslateStarted()
      returns (next: ScsiState, ghost act: Action, ghost seg: seq<BusEvent>, ghost dsc: seq<byte>, ghost read: bool)
      requires Able()
      modifies this`status, this`message, this`sense, buffer, host, fs, fs.vol
      ensures Executed(next, act, seg) && Accounted(next, act)
      ensures next.Status? && fs.vol.files == old(fs.vol.files)
      ensures |dsc| == DSC_LENGTH && (read ==> fs.Descriptor(lun) in fs.vol.files)
      ensures read && |fs.vol.files[fs.Descriptor(lun)]| >= DSC_LENGTH ==>
                dsc == fs.vol.files[fs.Descriptor(lun)][..DSC_LENGTH]
      ensures status == 0 && Heads(dsc) >= 1 ==>
                seg == [DATA_IN] + Drives(true, TranslateReply(Lba6(data), Heads(dsc)))
      ensures fs.NoFault() ==> (status == 0 <==> HadDescriptor())
      ensures fs.NoFault() && status == 0 ==> read
    {
      hide DataPhase, IoAfter, FileSystem.Ready, FileSystem.Valid, EncodeSense, Drives, Heads, Lba6, TranslateReply,
           HostAdapter.Valid;
      ghost var io := host.io;
      NoSegment(io);
      act, seg := NoAction, [];
      var found;
      found, read := fs.ReadLunDescriptor(lun, buffer);
      dsc := buffer[..DSC_LENGTH];
      if !found {
        act := Fail(0x00, 0x04);
        return Status, act, seg, dsc, read;
      }
      var reply := TranslateBytes(Lba6(data), Heads(buffer[..DSC_LENGTH]));
      InformationTransferPhase(DataInPhase);
      host.WriteAll(reply);
      Good();
      DataInSegment(reply, io, old(host.bus));
      seg := [DATA_IN] + Drives(true, reply);
      return Status, act, seg, dsc, read;
    }

    method TranslateBytes(lba: nat, headsPerCylinder: nat) returns (reply: seq<byte>)
      ensures headsPerCylinder >= 1 ==> reply == TranslateReply(lba, headsPerCylinder)
    {
      hide Packed, Quotient, Remainder;
      var bytesFromIndex := (lba % SECTORS_PER_TRACK + 1) * 256;
      if headsPerCylinder == 0 {
        var cylinderNumber: int, headNumber: int := *, *;
        reply := Packed(Max(cylinderNumber, 0), Max(headNumber, 0), bytesFromIndex);
      } else {
        var sectorsPerCylinder := headsPerCylinder * SECTORS_PER_TRACK;
        var cylinderNumber := Quotient(lba, sectorsPerCylinder);
        var headNumber := Remainder(lba / SECTORS_PER_TRACK, headsPerCylinder);
        reply := Packed(cylinderNumber, headNumber, bytesFromIndex);
      }
    }

    /** VERIFY checks the address only, not the block count. On a stopped LUN it fails without
        recording an error. `found` says that the descriptor could be opened, `dsc` what has
        been taken for it. */
    method CommandVerify()
      returns (next: ScsiState, ghost act: Action, ghost found: bool, ghost dsc: seq<byte>, ghost read: bool)
      requires Able()
      modifies this`status, this`message, this`sense, buffer, fs, fs.vol
      ensures Executed(next, act, [])
      ensures next.Status? && fs.vol.files == old(fs.vol.files)
      ensures !old(fs.started[lun]) ==> status == CheckCondition(lun) && act.NoAction?
      ensures old(fs.started[lun]) ==> Accounted(next, act)
      ensures |dsc| == DSC_LENGTH && (read ==> fs.Descriptor(lun) in fs.vol.files)
      ensures read && |fs.vol.files[fs.Descriptor(lun)]| >= DSC_LENGTH ==>
                dsc == fs.vol.files[fs.Descriptor(lun)][..DSC_LENGTH]
      ensures status == 0 <==> old(fs.started[lun]) && found && Lba10(data) < Sectors(dsc)
      ensures old(fs.started[lun]) && found && Lba10(data) >= Sectors(dsc) ==>
                act == Recorded(lun, SenseData(true, true, 0x02, 0x21, Lba10(data)))
      ensures fs.NoFault() && old(fs.started[lun]) ==> (found <==> HadDescriptor()) && (read <==> found)
    {
      hide DataPhase, IoAfter, FileSystem.Ready, FileSystem.Valid, EncodeSense, HostAdapter.Valid, Sectors, Lba10;
      NoSegment(host.io);
      act, found, dsc, read := NoAction, false, seq(DSC_LENGTH, _ => 0), false;
      if !fs.ReadLunStatus(lun) {
        status := lun * 32 + 2;
        message := 0;
        return Status, act, found, dsc, read;
      }
      next, act, found, dsc, read := VerifyStarted();
    }

    /** VERIFY of a started LUN. */
    method VerifyStarted()
      returns (next: ScsiState, ghost act: Action, ghost found: bool, ghost dsc: seq<byte>, ghost read: bool)
      requires Able()
      modifies this`status, this`message, this`sense, buffer, fs, fs.vol
      ensures Executed(next, act, []) && Accounted(next, act)
      ensures next.Status? && fs.vol.files == old(fs.vol.files)
      ensures |dsc| == DSC_LENGTH && (read ==> fs.Descriptor(lun) in fs.vol.files)
      ensures read && |fs.vol.files[fs.Descriptor(lun)]| >= DSC_LENGTH ==>
                dsc == fs.vol.files[fs.Descriptor(lun)][..DSC_LENGTH]
      ensures status == 0 <==> found && Lba10(data) < Sectors(dsc)
      ensures found && Lba10(data) >= Sectors(dsc) ==>
                act == Recorded(lun, SenseData(true, true, 0x02, 0x21, Lba10(data)))
      ensures fs.NoFault() ==> (found <==> HadDescriptor()) && (read <==> found)
    {
      hide DataPhase, IoAfter, FileSystem.Ready, FileSystem.Valid, EncodeSense, HostAdapter.Valid, Sectors, Lba10;
      NoSegment(host.io);
      act := NoAction;
      var logicalBlockAddress := Lba10(data);
      var ok;
      ok, read := fs.ReadLunDescriptor(lun, buffer);
      found, dsc := ok, buffer[..DSC_LENGTH];
      if !ok {
        act := Fail(0x00, 0x04);
        return Status, act, found, dsc, read;
      }
      if logicalBlockAddress >= Sectors(buffer[..DSC_LENGTH]) {
        status := lun * 32 + 2;
        message := 0;
        sense := sense[lun := SenseData(true, true, 0x02, 0x21, logicalBlockAddress)];
        act := Recorded(lun, SenseData(true, true, 0x02, 0x21, logicalBlockAddress));
        AddressErrorIsReportable(lun, logicalBlockAddress);
        return Status, act, found, dsc, read;
      }
      Good();
      return Status, act, found, dsc, read;
    }

    /** MODE SENSE sends the descriptor, started or not. */
    method CommandModeSense()
      returns (next: ScsiState, ghost act: Action, ghost seg: seq<BusEvent>, ghost read: bool)
      requires Able()
      modifies this`status, this`message, this`sense, buffer, host, fs, fs.vol
      ensures Executed(next, act, seg) && Accounted(next, act)
      ensures next.Status? && fs.vol.files == old(fs.vol.files)
      ensures data[4] != DSC_LENGTH ==> status != 0 && seg == []
      ensures read ==> fs.Descriptor(lun) in fs.vol.files
      ensures status == 0 && read && |fs.vol.files[fs.Descriptor(lun)]| >= DSC_LENGTH ==>
                seg == [DATA_IN] + Drives(true, fs.vol.files[fs.Descriptor(lun)][..DSC_LENGTH])
      ensures fs.NoFault() ==> (status == 0 <==> data[4] == DSC_LENGTH && HadDescriptor())
      ensures fs.NoFault() && status == 0 ==> read
    {
      hide DataPhase, IoAfter, FileSystem.Ready, FileSystem.Valid, EncodeSense, Drives, HostAdapter.Valid;
      ghost var io := host.io;
      NoSegment(io);
      act, seg, read := NoAction, [], false;
      if data[4] != DSC_LENGTH {
        act := Fail(0x02, 0x24);
        return Status, act, seg, read;
      }
      var found;
      found, read := fs.ReadLunDescriptor(lun, buffer);
      if !found {
        act := Fail(0x02, 0x24);
        return Status, act, seg, read;
      }
      InformationTransferPhase(DataInPhase);
      host.WriteAll(buffer[..DSC_LENGTH]);
      Good();
      DataInSegment(buffer[..DSC_LENGTH], io, old(host.bus));
      seg := [DATA_IN] + Drives(true, buffer[..DSC_LENGTH]);
      return Status, act, seg, read;
    }

    /** Reads n bytes from the host into the front of the buffer. */
    method ReceiveBytes(n: nat)
      requires n <= buffer.Length
      modifies host`request, host`strobes, host`nrstFlag, host`quiet, host`disturbed, host`bus, buffer
      ensures host.Steady()
      ensures host.bus == old(host.bus) + Samples(host.io, buffer[..n])
    {
      var byteCounter := 0;
      while byteCounter < n
        invariant 0 <= byteCounter <= n
        invariant host.Steady()
        invariant host.bus == old(host.bus) + Samples(host.io, buffer[..byteCounter])
      {
        ghost var before := buffer[..byteCounter];
        var value := host.ReadByte();
        buffer[byteCounter] := value;
        SampleNext(host.io, before, value);
        assert buffer[..byteCounter + 1] == before + [value];
        byteCounter := byteCounter + 1;
      }
    }

    /** What has gone over the bus has been written over the front of the descriptor, as far as
        there was room. */
    twostate predicate StoresDescriptor(seg: seq<BusEvent>)
      reads this`lun, fs`lunDirectory, fs`growth, fs.vol`files, fs.vol`room
    {
      var name := fs.Descriptor(lun);
      var was := if name in old(fs.vol.files) then old(fs.vol.files)[name] else [];
      && name in fs.vol.files && |Payload(seg)| == DSC_LENGTH
      && Rewritten(was, fs.vol.files[name], Payload(seg), fs.growth, fs.vol.room)
    }

    /** MODE SELECT stores the descriptor the host sends, in a file made for it if the LUN is
        stopped. */
    method CommandModeSelect() returns (next: ScsiState, ghost act: Action, ghost seg: seq<BusEvent>)
      requires Able()
      modifies this`status, this`message, this`sense, buffer, host, fs, fs.vol
      ensures Executed(next, act, seg) && Accounted(next, act)
      ensures next.Status? && fs.OnlyChanged(fs.Descriptor(lun))
      ensures data[4] != DSC_LENGTH ==> status != 0 && seg == []
      ensures status == 0 ==> HadDescriptor() || !old(fs.started)[lun]
      ensures fs.NoFault() && data[4] == DSC_LENGTH && HadDescriptor() ==> status == 0
      ensures fs.NoFault() && data[4] == DSC_LENGTH && !old(fs.started)[lun] && fs.lunDirectory in old(fs.vol.dirs) ==>
                status == 0
      ensures fs.NoFault() && status == 0 ==> StoresDescriptor(seg)
    {
      hide DataPhase, IoAfter, FileSystem.Ready, FileSystem.Valid, EncodeSense, Samples, HostAdapter.Valid, Payload,
           Rewritten;
      NoSegment(host.io);
      act, seg := NoAction, [];
      if !fs.ReadLunStatus(lun) {
        var created := fs.CreateLunDescriptor(lun);
        if !created {
          act := Fail(0x00, 0x04);
          return Status, act, seg;
        }
      }
      next, act, seg := SelectDescriptor();
    }

    /** MODE SELECT, once the descriptor file is there. */
    method SelectDescriptor() returns (next: ScsiState, ghost act: Action, ghost seg: seq<BusEvent>)
      requires Able()
      modifies this`status, this`message, this`sense, buffer, host, fs`fsResult, fs`growth, fs.vol
      ensures Executed(next, act, seg) && Accounted(next, act)
      ensures next.Status? && fs.OnlyChanged(fs.Descriptor(lun))
      ensures data[4] != DSC_LENGTH ==> status != 0 && seg == []
      ensures status == 0 ==> HadDescriptor()
      ensures fs.NoFault() && data[4] == DSC_LENGTH && HadDescriptor() ==> status == 0
      ensures fs.NoFault() && status == 0 ==> StoresDescriptor(seg)
    {
      hide DataPhase, IoAfter, FileSystem.Ready, FileSystem.Valid, EncodeSense, Samples, HostAdapter.Valid, Payload,
           Rewritten;
      NoSegment(host.io);
      act, seg := NoAction, [];
      if data[4] != DSC_LENGTH {
        act := Fail(0x02, 0x24);
        return Status, act, seg;
      }
      var ok;
      ok, seg := ReceiveDescriptor();
      if !ok {
        act := Fail(0x00, 0x04);
        return Status, act, seg;
      }
      Good();
      return Status, act, seg;
    }

    /** The data-out phase of MODE SELECT. */
    method ReceiveDescriptor() returns (ok: bool, ghost seg: seq<BusEvent>)
      requires Able()
      modifies buffer, host, fs`fsResult, fs`growth, fs.vol
      ensures Able() && fs.OnlyChanged(fs.Descriptor(lun)) && fs.vol.faults >= old(fs.vol.faults)
      ensures host.Steady()
      ensures host.bus == old(host.bus) + seg && DataPhase(seg) && host.io == IoAfter(seg, old(host.io))
      ensures ok ==> HadDescriptor()
      ensures fs.NoFault() && HadDescriptor() ==> ok
      ensures fs.NoFault() && ok ==> StoresDescriptor(seg)
    {
      hide DataPhase, IoAfter, FileSystem.Ready, FileSystem.Valid, EncodeSense, Samples, Fat.Overwrite,
           HostAdapter.Valid, Rewritten;
      ghost var io := host.io;
      InformationTransferPhase(DataOutPhase);
      ReceiveBytes(DSC_LENGTH);
      ghost var d := buffer[..DSC_LENGTH];
      DataOutSegment(d, io, old(host.bus));
      PayloadOut(d);
      hide Payload;
      seg := [DATA_OUT] + Samples(false, d);
      ghost var written;
      ok, written := fs.WriteLunDescriptor(lun, buffer[..DSC_LENGTH]);
    }

    // ---- FORMAT -------------------------------------------------------------------------

    /** `dsc` are 22 bytes; when `read` holds they are the descriptor that was on the card. */
    twostate predicate ReadFrom(dsc: seq<byte>, read: bool)
      reads this`lun, fs`lunDirectory
    {
      var files := old(fs.vol.files);
      && |dsc| == DSC_LENGTH
      && (read ==> fs.Descriptor(lun) in files
                   && (|files[fs.Descriptor(lun)]| >= DSC_LENGTH ==> dsc == files[fs.Descriptor(lun)][..DSC_LENGTH]))
    }

    /** A defect list: its header says how long the list is. */
    predicate DefectList(list: seq<byte>)
    {
      |list| >= 4 && |list| == 4 + BigEndian(0, list[2], list[3]) / 8 * 8
    }

    /** FORMAT makes the image of a stopped LUN, reads the defect list the host may want to
        send, and replaces the image by one of the size the descriptor asks for. `dsc` is the
        descriptor that size came from. A LUN that cannot be formatted is stopped; after good
        status it is started if the start has worked, `running`. */
    method CommandFormat()
      returns (next: ScsiState, ghost act: Action, ghost seg: seq<BusEvent>, ghost list: seq<byte>,
               ghost dsc: seq<byte>, ghost read: bool, ghost running: bool)
      requires Able()
      modifies this`status, this`message, this`sense, buffer, host, fs, fs.vol, fs.sectorBuffer
      ensures Executed(next, act, seg) && Accounted(next, act)
      ensures next.Status? && fs.OnlyLunChanged(lun) && ReadFrom(dsc, read)
      ensures seg == (if list == [] then [] else [DATA_OUT] + Samples(false, list))
      ensures list != [] ==> DefectList(list) && data[1] % 32 in {28, 30}
      ensures status == 0 && data[1] % 32 in {28, 30} ==> list != []
      ensures status == 0 ==> fs.Image(lun) in fs.vol.files && |fs.vol.files[fs.Image(lun)]| == FormatSize(dsc)
      ensures status != 0 ==> !fs.started[lun] && fs.KeptOrEmptied(fs.Image(lun))
      ensures status == 0 ==> (fs.started[lun] <==> running) && (old(fs.started)[lun] ==> running)
      ensures fs.NoFault() && HadImage() ==> (status == 0 <==> HadDescriptor() && FormatSize(dsc) != 0)
      ensures fs.NoFault() && status == 0 ==> read && (running <==> fs.mounted)
      ensures fs.NoFault() ==> fs.DescriptorsKept()
    {
      hide DataPhase, IoAfter, FileSystem.Ready, FileSystem.Valid, EncodeSense, Samples, FormatSize, DefectList;
      NoSegment(host.io);
      next, act, seg, list, dsc, read := Status, NoAction, [], [], seq(DSC_LENGTH, _ => 0), false;
      running := false;
      var created := EnsureImage();
      if created {
        act, seg, list, dsc, read, running := FormatImage();
      } else {
        act := Unformatted();
      }
    }

    /** FORMAT of a LUN with an image. */
    method FormatImage()
      returns (ghost act: Action, ghost seg: seq<BusEvent>, ghost list: seq<byte>,
               ghost dsc: seq<byte>, ghost read: bool, ghost running: bool)
      requires Able()
      modifies this`status, this`message, this`sense, buffer, host
      modifies fs`fsResult, fs`started, fs`growth, fs.vol, fs.sectorBuffer
      ensures Executed(Status, act, seg) && Accounted(Status, act)
      ensures fs.OnlyLunChanged(lun) && ReadFrom(dsc, read)
      ensures seg == (if list == [] then [] else [DATA_OUT] + Samples(false, list))
      ensures list != [] ==> DefectList(list)
      ensures list != [] <==> data[1] % 32 in {28, 30}
      ensures status == 0 ==> fs.Image(lun) in fs.vol.files && |fs.vol.files[fs.Image(lun)]| == FormatSize(dsc)
      ensures status != 0 ==> !fs.started[lun] && fs.KeptOrEmptied(fs.Image(lun))
      ensures status == 0 ==> (fs.started[lun] <==> running) && (old(fs.started)[lun] ==> running)
      ensures fs.NoFault() && fs.Image(lun) in old(fs.vol.files) ==>
                (status == 0 <==> HadDescriptor() && FormatSize(dsc) != 0)
      ensures fs.NoFault() && status == 0 ==> read && (running <==> fs.mounted)
      ensures fs.NoFault() ==> fs.DescriptorsKept()
    {
      hide DataPhase, IoAfter, FileSystem.Ready, FileSystem.Valid, EncodeSense, Samples, FormatSize,
           HostAdapter.Valid;
      seg, list := TakeDefectList();
      act, dsc, read, running := RecreateImage();
    }

    /** The data-out phase of FORMAT, if the options ask for it. */
    method TakeDefectList() returns (ghost seg: seq<BusEvent>, ghost list: seq<byte>)
      requires Wired() && host.Valid()
      modifies buffer, host
      ensures host.Valid() && host.Steady()
      ensures host.bus == old(host.bus) + seg && DataPhase(seg) && host.io == IoAfter(seg, old(host.io))
      ensures seg == (if list == [] then [] else [DATA_OUT] + Samples(false, list))
      ensures list != [] ==> DefectList(list)
      ensures list != [] <==> data[1] % 32 in {28, 30}
    {
      hide DataPhase, IoAfter, Samples;
      NoSegment(host.io);
      ghost var io := host.io;
      seg, list := [], [];
      if data[1] % 32 == 28 || data[1] % 32 == 30 {
        InformationTransferPhase(DataOutPhase);
        list := ReceiveDefectList();
        DataOutSegment(list, io, old(host.bus));
        seg := [DATA_OUT] + Samples(false, list);
      }
    }

    method EnsureImage() returns (ok: bool)
      requires Able()
      modifies fs`fsResult, fs.vol
      ensures Able() && fs.OnlyChanged(fs.Image(lun))
      ensures ok ==> fs.Image(lun) in fs.vol.files
      ensures fs.vol.faults >= old(fs.vol.faults) && fs.KeptOrEmptied(fs.Image(lun))
      ensures fs.Image(lun) in old(fs.vol.files) ==> fs.vol.files == old(fs.vol.files)
      ensures fs.NoFault() && fs.Image(lun) in old(fs.vol.files) ==> ok
    {
      ok := true;
      if !fs.ReadLunStatus(lun) {
        ok := fs.CreateLunImage(lun);
      }
    }

    /** Stops the LUN and reports a bad format. */
    method Unformatted() returns (ghost act: Action)
      requires Able()
      modifies this`status, this`message, this`sense, fs`fsResult, fs`started, fs`growth, fs.vol, fs.sectorBuffer
      ensures Able() && fs.vol.files == old(fs.vol.files) && !fs.started[lun] && fs.NoFault()
      ensures status == CheckCondition(lun) && act == Recorded(lun, SenseData(true, false, 0x02, 0x1C, 0))
      ensures Reportable(act) && sense == Noted(old(sense), act)
    {
      act := Fail(0x02, 0x1C);
      var stopped := fs.SetLunStatus(lun, false);
    }

    /** The emulation has no use for the defects; it only takes them off the bus. */
    method ReceiveDefectList() returns (ghost list: seq<byte>)
      requires Wired()
      modifies buffer, host`request, host`strobes, host`nrstFlag, host`quiet, host`disturbed, host`bus
      ensures host.Steady()
      ensures host.bus == old(host.bus) + Samples(host.io, list)
      ensures DefectList(list)
    {
      hide Samples;
      ReceiveBytes(4);
      list := buffer[..4];
      var defectListLength: uint16 := BigEndian(0, buffer[2], buffer[3]) / 8;
      var defectListRecords := 0;
      while defectListRecords < defectListLength
        invariant 0 <= defectListRecords <= defectListLength
        invariant host.Steady()
        invariant |list| == 4 + 8 * defectListRecords
        invariant defectListLength == BigEndian(0, list[2], list[3]) / 8
        invariant host.bus == old(host.bus) + Samples(host.io, list)
      {
        ReceiveBytes(8);
        SamplesAppend(host.io, list, buffer[..8]);
        list := list + buffer[..8];
        defectListRecords := defectListRecords + 1;
      }
    }

    /** The image anew, and a start of the LUN, whose outcome is `running` and changes nothing in
        the status. */
    method RecreateImage() returns (ghost act: Action, ghost dsc: seq<byte>, ghost read: bool, ghost running: bool)
      requires Able()
      modifies this`status, this`message, this`sense, fs`fsResult, fs`started, fs`growth, fs.vol, fs.sectorBuffer
      ensures Able() && fs.OnlyLunChanged(lun) && ReadFrom(dsc, read)
      ensures status == 0 ==> act.NoAction? && sense == old(sense)
      ensures status == 0 ==> fs.Image(lun) in fs.vol.files && |fs.vol.files[fs.Image(lun)]| == FormatSize(dsc)
      ensures status != 0 ==> status == CheckCondition(lun)
      ensures status != 0 ==> act == Recorded(lun, SenseData(true, false, 0x02, 0x1C, 0))
      ensures status != 0 ==> !fs.started[lun] && fs.KeptOrEmptied(fs.Image(lun))
      ensures status == 0 ==> (fs.started[lun] <==> running) && (old(fs.started)[lun] ==> running)
      ensures fs.NoFault() && fs.Image(lun) in old(fs.vol.files) ==>
                (status == 0 <==> HadDescriptor() && FormatSize(dsc) != 0)
      ensures fs.NoFault() && status == 0 ==> read && (running <==> fs.mounted)
      ensures fs.NoFault() ==> fs.DescriptorsKept()
      ensures fs.vol.faults >= old(fs.vol.faults)
      ensures Reportable(act) && sense == Noted(old(sense), act)
    {
      hide FileSystem.Ready, FileSystem.Valid, FormatSize, EncodeSense, HostAdapter.Valid, FileSystem.OnlyLunChanged,
           FileSystem.DescriptorsKept, FileSystem.KeptOrEmptied, ReadFrom, HadDescriptor;
      act := NoAction;
      var formatted;
      formatted, dsc, read, running := ReplaceImage();
      if formatted {
        Good();
      } else {
        act := Unformatted();
      }
    }

    /** The image anew and, if that has worked, the start of the LUN. */
    method ReplaceImage() returns (formatted: bool, ghost dsc: seq<byte>, ghost read: bool, ghost running: bool)
      requires Able()
      modifies fs`fsResult, fs`started, fs`growth, fs.vol, fs.sectorBuffer
      ensures Able() && fs.OnlyLunChanged(lun) && ReadFrom(dsc, read)
      ensures formatted ==> fs.Image(lun) in fs.vol.files && |fs.vol.files[fs.Image(lun)]| == FormatSize(dsc)
      ensures formatted ==> (fs.started[lun] <==> running) && (old(fs.started)[lun] ==> running)
      ensures !formatted ==> fs.KeptOrEmptied(fs.Image(lun))
      ensures fs.NoFault() && fs.Image(lun) in old(fs.vol.files) ==>
                (formatted <==> HadDescriptor() && FormatSize(dsc) != 0)
      ensures fs.NoFault() && formatted ==> read && (running <==> fs.mounted)
      ensures fs.NoFault() ==> fs.DescriptorsKept()
      ensures fs.vol.faults >= old(fs.vol.faults)
    {
      hide FileSystem.Valid, FormatSize, EncodeSense, HostAdapter.Valid;
      running := false;
      formatted, dsc, read := fs.FormatLun(lun);
      if formatted {
        var started := fs.SetLunStatus(lun, true);
        running := started;
      }
    }

    // ---- READ(6) ------------------------------------------------------------------------

    /** READ and WRITE start a stopped LUN that has an image. */
    method AutoStart() returns (ok: bool, ghost act: Action)
      requires Able()
      modifies this`status, this`message, this`sense, fs`fsResult, fs`started, fs`growth, fs.vol, fs.sectorBuffer
      ensures Able() && fs.OnlyChanged(fs.Descriptor(lun))
      ensures ok ==> fs.started[lun] && fs.mounted && fs.Image(lun) in fs.vol.files
      ensures fs.vol.faults >= old(fs.vol.faults)
      ensures fs.NoFault() ==> (ok <==> HadImage()) && fs.DescriptorsKept()
      ensures ok ==> act.NoAction? && sense == old(sense) && status == old(status)
      ensures !ok ==> status == CheckCondition(lun)
      ensures !ok ==> act == Recorded(lun, SenseData(true, false, 0x02, 0x1C, 0))
      ensures Reportable(act)
      ensures sense == Noted(old(sense), act)
    {
      ok, act := true, NoAction;
      if !fs.ReadLunStatus(lun) {
        ok := fs.SetLunStatus(lun, true);
        if !ok {
          act := Fail(0x02, 0x1C);
        }
      }
    }

    /** The LUN is in an unknown state: close it, stop it, and report the drive not ready. */
    method GiveUp() returns (ghost act: Action)
      requires Wired() && host.Valid() && (fs.Ready() || fs.LunOpen())
      modifies this`status, this`message, this`sense
      modifies fs`fsResult, fs`started, fs`growth, fs`lunOpenFlag, fs.vol, fs.sectorBuffer
      ensures Able() && fs.vol.files == old(fs.vol.files)
      ensures fs.vol.faults >= old(fs.vol.faults) && fs.growth == old(fs.growth)
      ensures status == CheckCondition(lun) && act == Recorded(lun, SenseData(true, false, 0x00, 0x04, 0))
      ensures Reportable(act)
      ensures sense == Noted(old(sense), act)
    {
      act := Fail(0x00, 0x04);
      fs.CloseLun();
      var stopped := fs.SetLunStatus(lun, false);
    }

    /** The bytes are those of the LUN's image from the addressed sector on. */
    ghost predicate FromImage(sent: seq<byte>)
      reads this`data, this`lun, fs`lunDirectory, fs.vol`files
    {
      sent == []
      || (&& fs.Image(lun) in fs.vol.files && |data| == 12
          && Carries(sent, fs.vol.files[fs.Image(lun)], Offset6(data)))
    }

    /** READ(6) as a whole: what went over the bus is what the image holds. */
    ghost predicate Reads(next: ScsiState, seg: seq<BusEvent>)
      reads this`data, this`lun, this`status, fs`lunDirectory, fs.vol`files
    {
      var succeeded := next.Status? && status == 0;
      && (succeeded ==> fs.Image(lun) in fs.vol.files)
      && (fs.Image(lun) in fs.vol.files ==> Delivered(data, seg, succeeded, fs.vol.files[fs.Image(lun)]))
    }

    lemma SentIsPayload(next: ScsiState, seg: seq<BusEvent>, sent: seq<byte>)
      requires |data| == 12 && FromImage(sent)
      requires seg == (if seg == [] then [] else [DATA_IN] + Drives(true, sent))
      requires seg == [] ==> sent == []
      requires |sent| <= Window6(data)
      requires next.Status? && status == 0 ==> |sent| == Window6(data)
      ensures Reads(next, seg)
    {
      hide Payload, Drives;
      PayloadIn(sent);
    }

    /** READ(6). `sent` are the bytes put on the data bus: those of the image from the addressed
        sector on, as far as the image has them. All blocks are sent when the command succeeds. */
    method CommandRead6() returns (next: ScsiState, ghost act: Action, ghost seg: seq<BusEvent>, ghost sent: seq<byte>)
      requires Able()
      modifies this`status, this`message, this`sense, buffer, host, fs, fs.vol, fs.sectorBuffer
      ensures Executed(next, act, seg) && Accounted(next, act)
      ensures fs.OnlyChanged(fs.Descriptor(lun))
      ensures seg == (if seg == [] then [] else [DATA_IN] + Drives(true, sent))
      ensures seg == [] ==> sent == []
      ensures |sent| <= Window6(data)
      ensures next.Status? && status == 0 ==> |sent| == Window6(data)
      ensures FromImage(sent) && Reads(next, seg)
      ensures Served(next) && (fs.NoFault() ==> fs.DescriptorsKept())
    {
      hide DataPhase, IoAfter, FileSystem.Ready, FileSystem.Valid, EncodeSense, FromImage,
           FileSystem.OnlyChanged, Reads;
      NoSegment(host.io);
      seg, sent := [], [];
      next := Status;
      var started;
      started, act := AutoStart();
      NothingFrom();
      if started {
        next, act, seg, sent := SendData();
      }
      SentIsPayload(next, seg, sent);
    }

    /** With no reset and no failure of FatFs, a transfer succeeds exactly if there was an image. */
    twostate predicate Served(next: ScsiState)
      reads this`lun, this`status, host`nrstFlag, fs`lunDirectory, fs.vol`faults
    {
      fs.NoFault() && !host.nrstFlag ==> next.Status? && (status == 0 <==> HadImage())
    }

    lemma NothingFrom()
      ensures FromImage([])
    {
    }

    /** READ(6) of a started LUN. */
    method SendData() returns (next: ScsiState, ghost act: Action, ghost seg: seq<BusEvent>, ghost sent: seq<byte>)
      requires Able() && fs.Image(lun) in fs.vol.files
      modifies this`status, this`message, this`sense, buffer, host
      modifies fs`fsResult, fs`started, fs`growth, fs`lunOpenFlag, fs`sectorsInBuffer, fs`currentBufferSector,
               fs`sectorsRemaining, fs`first, fs`total, fs`delivered, fs`rejected, fs.vol, fs.sectorBuffer
      ensures Executed(next, act, seg) && Accounted(next, act)
      ensures fs.vol.files == old(fs.vol.files)
      ensures seg == [DATA_IN] + Drives(true, sent)
      ensures fs.NoFault() && !host.nrstFlag ==> next.Status? && status == 0
      ensures |sent| <= Window6(data)
      ensures next.Status? && status == 0 ==> |sent| == Window6(data)
      ensures FromImage(sent)
    {
      hide DataPhase, IoAfter, FileSystem.Ready, FileSystem.Valid, EncodeSense, Carries, Drives, Window6, Offset6,
           HostAdapter.Valid, Reportable;
      ghost var io := host.io;
      InformationTransferPhase(DataInPhase);
      var outcome;
      outcome, act, sent := ReadBlocks();
      DataInSegment(sent, io, old(host.bus));
      seg := [DATA_IN] + Drives(true, sent);
      next := if outcome.Interrupted? then BusFree else Status;
    }

    /** The data-in phase of READ(6), with the LUN started and the signals set up. */
    method ReadBlocks() returns (outcome: Outcome, ghost act: Action, ghost sent: seq<byte>)
      requires Able() && host.io && fs.Image(lun) in fs.vol.files
      modifies this`status, this`message, this`sense, buffer
      modifies host`request, host`strobes, host`nrstFlag, host`quiet, host`disturbed, host`bus
      modifies fs`fsResult, fs`started, fs`growth, fs`lunOpenFlag, fs`sectorsInBuffer, fs`currentBufferSector,
               fs`sectorsRemaining, fs`first, fs`total, fs`delivered, fs`rejected, fs.vol, fs.sectorBuffer
      ensures Able() && fs.vol.files == old(fs.vol.files)
      ensures host.Steady()
      ensures host.bus == old(host.bus) + Drives(true, sent)
      ensures act.NoAction? || act == Recorded(lun, SenseData(true, false, 0x00, 0x04, 0))
      ensures Reportable(act)
      ensures sense == Noted(old(sense), act)
      ensures outcome.Completed? ==> act.NoAction? && status == 0 && |sent| == Window6(data)
      ensures outcome.Failed? ==> status == CheckCondition(lun) && act.Recorded?
      ensures fs.vol.faults >= old(fs.vol.faults) && (outcome.Failed? ==> !fs.NoFault())
      ensures outcome.Interrupted? ==> act.NoAction? && host.nrstFlag
      ensures |sent| <= Window6(data)
      ensures Carries(sent, fs.vol.files[fs.Image(lun)], Offset6(data))
    {
      hide FileSystem.Ready, FileSystem.LunOpen, FileSystem.Reading, Carries, Drives, HostAdapter.Valid, EncodeSense,
           Lba6, Blocks6;
      var numberOfBlocks := Blocks6(data);
      var lba: uint32 := Lba6(data);
      assert lba % 0x80_0000 == lba;
      act, sent := NoAction, [];
      NothingSent(fs.vol.files[fs.Image(lun)], Offset6(data));
      var ok := fs.OpenLunForRead(lun, lba, numberOfBlocks);
      if !ok {
        act := GiveUp();
        return Failed, act, sent;
      }
      outcome, sent := SendBlocks(numberOfBlocks);
      match outcome {
        case Completed =>
          fs.CloseLun();
          Good();
        case Failed =>
          act := GiveUp();
        case Interrupted =>
          fs.CloseLun();
      }
    }

    /** One block to the host; fewer bytes only with the reset flag set. */
    method SendBlock() returns (ghost block: seq<byte>)
      requires Wired() && host.Valid() && host.io
      modifies host`request, host`strobes, host`nrstFlag, host`quiet, host`disturbed, host`bus
      ensures host.Steady()
      ensures |block| <= SECTOR_SIZE && block == buffer[..|block|]
      ensures host.bus == old(host.bus) + Drives(true, block)
      ensures |block| == SECTOR_SIZE || host.nrstFlag
    {
      var bytesTransferred;
      ghost var k;
      bytesTransferred, k := host.PerformReadDMA(buffer);
      block := buffer[..k];
      host.Interrupts();
    }

    /** The block loop of READ(6). */
    method SendBlocks(numberOfBlocks: nat) returns (outcome: Outcome, ghost sent: seq<byte>)
      requires Wired() && host.Valid() && host.io
      requires fs.Reading() && fs.LunOpen() && fs.delivered == 0 && fs.total == numberOfBlocks
      modifies buffer, host`request, host`strobes, host`nrstFlag, host`quiet, host`disturbed, host`bus
      modifies fs`fsResult, fs`sectorsInBuffer, fs`currentBufferSector, fs`sectorsRemaining, fs`delivered
      modifies fs.vol`handle, fs.vol`closeFailed, fs.vol`faults, fs.sectorBuffer
      ensures fs.LunOpen() && host.Valid()
      ensures fs.vol.faults >= old(fs.vol.faults) && (outcome.Failed? ==> !fs.NoFault())
      ensures host.Steady()
      ensures host.bus == old(host.bus) + Drives(true, sent)
      ensures |sent| <= numberOfBlocks * SECTOR_SIZE
      ensures outcome.Completed? ==> |sent| == numberOfBlocks * SECTOR_SIZE
      ensures outcome.Interrupted? ==> host.nrstFlag
      ensures Carries(sent, fs.vol.files[old(fs.vol.handle).name], fs.first * SECTOR_SIZE)
    {
      hide FileSystem.LunOpen, FileSystem.Reading, Carries, Drives;
      sent := [];
      ghost var image, bus := fs.vol.files[fs.vol.handle.name], host.bus;
      NothingSent(image, fs.first * SECTOR_SIZE);
      var currentBlock := 0;
      while currentBlock < numberOfBlocks
        invariant currentBlock <= numberOfBlocks
        invariant fs.Reading() && fs.LunOpen() && fs.delivered == currentBlock
        invariant fs.vol.faults >= old(fs.vol.faults)
        invariant fs.vol.handle.name == old(fs.vol.handle.name)
        invariant host.Valid() && host.Steady()
        invariant |sent| == currentBlock * SECTOR_SIZE
        invariant host.bus == bus + Drives(true, sent)
        invariant Carries(sent, image, fs.first * SECTOR_SIZE)
      {
        var ok := fs.ReadNextSector(buffer);
        if !ok {
          return Failed, sent;
        }
        ghost var block;
        block := SendBlock();
        CarriesMore(sent, image, fs.first * SECTOR_SIZE, buffer[..], |block|);
        DrivesAppend(true, sent, block);
        sent := sent + block;
        if host.nrstFlag {
          return Interrupted, sent;
        }
        currentBlock := currentBlock + 1;
      }
      return Completed, sent;
    }

    // ---- WRITE(6) -----------------------------------------------------------------------

    /** The image of the LUN with `d` written at the addressed blocks, as far as the volume has
        room; `before` is what it was. */
    ghost predicate ImageAfter(before: seq<byte>, d: seq<byte>)
      reads this`data, this`lun, fs`lunDirectory, fs`growth, fs.vol`files
    {
      && |data| == 12 && fs.Image(lun) in fs.vol.files
      && Stored(before, fs.vol.files[fs.Image(lun)], Offset6(data), d, fs.growth)
    }

    /** How much of what has been received is committed, by outcome: everything after a good
        transfer, all but the last block after a failing write, all but a part of a block or
        one whole block after a reset. */
    ghost predicate Transferred(next: ScsiState, received: seq<byte>, committed: nat)
      reads this`data, this`status
    {
      && |data| == 12 && committed <= Blocks6(data)
      && committed * SECTOR_SIZE <= |received| <= (committed + 1) * SECTOR_SIZE
      && (next.Status? && status == 0 ==> committed == Blocks6(data) && |received| == committed * SECTOR_SIZE)
      && (next.Status? && status != 0 ==> received == [] || |received| == (committed + 1) * SECTOR_SIZE)
    }

    /** WRITE(6) as a whole: of what went over the bus, the first blocks are in the image. */
    twostate predicate Writes(next: ScsiState, seg: seq<BusEvent>, blocks: nat)
      reads this`data, this`lun, this`status, fs`lunDirectory, fs`growth, fs.vol`files
    {
      var name, succeeded := fs.Image(lun), next.Status? && status == 0;
      && ((blocks == 0 && !succeeded) || name in old(fs.vol.files))
      && (name in old(fs.vol.files) ==>
            && name in fs.vol.files
            && Committed(data, seg, succeeded, blocks, fs.growth, old(fs.vol.files)[name], fs.vol.files[name]))
    }

    /** WRITE(6) is block by block: `received` are the bytes sampled from the data bus, and
        exactly the first `committed` whole blocks of them are in the image, and nothing else
        has changed, whether the command succeeds, f_write fails, the host resets, or the host
        stops acknowledging. */
    method CommandWrite6()
      returns (next: ScsiState, ghost act: Action, ghost seg: seq<BusEvent>,
               ghost received: seq<byte>, ghost committed: nat)
      requires Able()
      modifies this`status, this`message, this`sense, buffer, host, fs, fs.vol, fs.sectorBuffer
      ensures Executed(next, act, seg) && Accounted(next, act)
      ensures seg == (if seg == [] then [] else [DATA_OUT] + Samples(false, received))
      ensures seg == [] ==> received == []
      ensures Transferred(next, received, committed)
      ensures committed > 0 ==> fs.Image(lun) in old(fs.vol.files)
      ensures fs.Image(lun) in old(fs.vol.files) ==>
                ImageAfter(old(fs.vol.files)[fs.Image(lun)], received[..committed * SECTOR_SIZE])
      ensures fs.OnlyLunChanged(lun) && Writes(next, seg, committed)
      ensures Served(next) && (fs.NoFault() ==> fs.DescriptorsKept())
    {
      hide DataPhase, IoAfter, FileSystem.Ready, FileSystem.Valid, EncodeSense, Patched, Payload, Samples;
      NoSegment(host.io);
      seg, received, committed := [], [], 0;
      next := Status;
      var started;
      started, act := AutoStart();
      if started {
        next, act, seg, received, committed := ReceiveData();
      }
      PayloadOut(received);
    }

    /** WRITE(6) of a started LUN. */
    method ReceiveData()
      returns (next: ScsiState, ghost act: Action, ghost seg: seq<BusEvent>,
               ghost received: seq<byte>, ghost committed: nat)
      requires Able() && fs.Image(lun) in fs.vol.files
      modifies this`status, this`message, this`sense, buffer, host
      modifies fs`fsResult, fs`started, fs`lunOpenFlag, fs`rejected, fs`growth, fs.vol, fs.sectorBuffer
      ensures Executed(next, act, seg) && Accounted(next, act)
      ensures seg == [DATA_OUT] + Samples(false, received)
      ensures fs.NoFault() && !host.nrstFlag ==> next.Status? && status == 0
      ensures Transferred(next, received, committed)
      ensures ImageAfter(old(fs.vol.files)[fs.Image(lun)], received[..committed * SECTOR_SIZE])
      ensures fs.OnlyChanged(fs.Image(lun))
    {
      hide DataPhase, IoAfter, FileSystem.Ready, FileSystem.Valid, EncodeSense, ImageAfter, Samples;
      ghost var io := host.io;
      InformationTransferPhase(DataOutPhase);
      var outcome;
      outcome, act, received, committed := WriteBlocks();
      DataOutSegment(received, io, old(host.bus));
      seg := [DATA_OUT] + Samples(false, received);
      next := if outcome.Interrupted? then BusFree else Status;
    }

    /** The data-out phase of WRITE(6), with the LUN started and the signals set up. */
    method WriteBlocks() returns (outcome: Outcome, ghost act: Action, ghost received: seq<byte>, ghost committed: nat)
      requires Able() && !host.io && fs.Image(lun) in fs.vol.files
      modifies this`status, this`message, this`sense, buffer
      modifies host`request, host`strobes, host`nrstFlag, host`quiet, host`disturbed, host`bus
      modifies fs`fsResult, fs`started, fs`lunOpenFlag, fs`rejected, fs`growth, fs.vol, fs.sectorBuffer
      ensures Able() && fs.OnlyChanged(fs.Image(lun))
      ensures host.Steady()
      ensures host.bus == old(host.bus) + Samples(false, received)
      ensures act.NoAction? || act == Recorded(lun, SenseData(true, false, 0x00, 0x04, 0))
      ensures Reportable(act) && sense == Noted(old(sense), act)
      ensures outcome.Completed? ==> act.NoAction? && status == 0
      ensures outcome.Failed? ==> status == CheckCondition(lun) && act.Recorded?
      ensures fs.vol.faults >= old(fs.vol.faults) && (outcome.Failed? ==> !fs.NoFault())
      ensures outcome.Interrupted? ==> act.NoAction? && host.nrstFlag
      ensures Transferred(if outcome.Interrupted? then BusFree else Status, received, committed)
      ensures ImageAfter(old(fs.vol.files)[fs.Image(lun)], received[..committed * SECTOR_SIZE])
    {
      hide FileSystem.Ready, FileSystem.LunOpen, Samples, HostAdapter.Valid, EncodeSense, Stored, ImageAfter,
           FileSystem.OnlyChanged;
      act := NoAction;
      outcome, received, committed := Store(Blocks6(data));
      match outcome {
        case Completed =>
          fs.CloseLun();
          Good();
        case Failed =>
          act := GiveUp();
        case Interrupted =>
          fs.CloseLun();
      }
    }

    /** Opens the image and stores the blocks the host sends. */
    method Store(numberOfBlocks: nat) returns (outcome: Outcome, ghost received: seq<byte>, ghost committed: nat)
      requires Able() && !host.io && fs.Image(lun) in fs.vol.files && numberOfBlocks == Blocks6(data)
      modifies buffer, host`request, host`strobes, host`nrstFlag, host`quiet, host`disturbed, host`bus
      modifies fs`fsResult, fs`lunOpenFlag, fs`rejected, fs`growth, fs.vol
      ensures host.Valid() && (fs.LunOpen() || (outcome.Failed? && fs.Ready()))
      ensures fs.vol.faults >= old(fs.vol.faults) && (outcome.Failed? ==> !fs.NoFault())
      ensures fs.OnlyChanged(fs.Image(lun))
      ensures host.Steady()
      ensures host.bus == old(host.bus) + Samples(false, received)
      ensures committed <= numberOfBlocks
      ensures committed * SECTOR_SIZE <= |received| <= (committed + 1) * SECTOR_SIZE
      ensures outcome.Completed? ==> committed == numberOfBlocks && |received| == committed * SECTOR_SIZE
      ensures outcome.Failed? ==> received == [] || |received| == (committed + 1) * SECTOR_SIZE
      ensures outcome.Interrupted? ==> host.nrstFlag
      ensures ImageAfter(old(fs.vol.files[fs.Image(lun)]), received[..committed * SECTOR_SIZE])
    {
      hide FileSystem.Ready, FileSystem.LunOpen, Samples, HostAdapter.Valid, Storing, Stored, ImageAfter;
      ghost var before := fs.vol.files[fs.Image(lun)];
      received, committed := [], 0;
      NothingReceived();
      var ok := OpenForStoring(numberOfBlocks);
      if !ok {
        return Failed, received, committed;
      }
      outcome, received, committed := StoreBlocks(numberOfBlocks, before);
    }

    /** A write in progress: `d` has been committed. With no file open nothing is. */
    ghost predicate Storing(before: seq<byte>, d: seq<byte>)
      reads this`data, this`lun, fs`lunDirectory, fs`growth, fs.vol`files, fs.vol`handle, fs.vol`room
    {
      var name, handle := fs.Image(lun), fs.vol.handle;
      && |data| == 12 && name in fs.vol.files
      && (handle.Closed? ==> d == [] && fs.vol.files[name] == before)
      && (handle.Open? ==> handle == Fat.Open(name, handle.pos, true)
                           && Landing(before, fs.vol.files[name], handle.pos, Offset6(data), d, fs.growth, fs.vol.room))
    }

    lemma StoringLeaves(before: seq<byte>, d: seq<byte>)
      requires Storing(before, d)
      ensures ImageAfter(before, d)
    {
      hide Patched;
    }

    method OpenForStoring(numberOfBlocks: nat) returns (ok: bool)
      requires Wired() && fs.Ready() && fs.Image(lun) in fs.vol.files && numberOfBlocks == Blocks6(data)
      modifies fs`fsResult, fs`lunOpenFlag, fs`rejected, fs`growth, fs.vol
      ensures if ok then fs.LunOpen() else fs.Ready()
      ensures fs.OnlyChanged(fs.Image(lun))
      ensures ok ==> Storing(old(fs.vol.files[fs.Image(lun)]), [])
      ensures !ok ==> ImageAfter(old(fs.vol.files[fs.Image(lun)]), [])
      ensures fs.vol.faults >= old(fs.vol.faults)
      ensures fs.NoFault() ==> ok && fs.vol.handle.Open?
    {
      hide FileSystem.Ready, FileSystem.LunOpen, FileSystem.OnlyChanged, Patched, Landing, Lba6;
      var lba: uint32 := Lba6(data);
      assert lba % 0x80_0000 == lba;
      ok := fs.OpenLunForWrite(lun, lba, numberOfBlocks);
    }

    /** One block from the host; fewer bytes only with the reset flag set. */
    method ReceiveBlock() returns (ghost block: seq<byte>)
      requires Wired() && host.Valid() && !host.io
      modifies buffer, host`request, host`strobes, host`nrstFlag, host`quiet, host`disturbed, host`bus
      ensures host.Steady()
      ensures |block| <= SECTOR_SIZE && block == buffer[..|block|]
      ensures host.bus == old(host.bus) + Samples(false, block)
      ensures |block| == SECTOR_SIZE || host.nrstFlag
    {
      var bytesTransferred;
      ghost var k;
      bytesTransferred, k := host.PerformWriteDMA(buffer);
      block := buffer[..k];
      host.Interrupts();
    }

    /** The block in the buffer to the image. */
    method StoreBlock(ghost before: seq<byte>, ghost d: seq<byte>) returns (ok: bool)
      requires Wired() && fs.LunOpen() && Storing(before, d)
      modifies fs`fsResult, fs.vol`files, fs.vol`handle, fs.vol`room, fs.vol`closeFailed, fs.vol`faults
      ensures fs.LunOpen() && fs.OnlyChanged(fs.Image(lun))
      ensures fs.vol.faults >= old(fs.vol.faults)
      ensures old(fs.vol.handle).Open? ==> if ok then fs.vol.handle.Open? else !fs.NoFault()
      ensures ok ==> Storing(before, d + buffer[..])
      ensures !ok ==> ImageAfter(before, d)
    {
      hide Landing, FileSystem.Usable, Stored;
      StoringLeaves(before, d);
      ghost var image, pos, room := fs.vol.files[fs.Image(lun)], 0, fs.vol.room;
      if fs.vol.handle.Open? {
        pos := fs.vol.handle.pos;
      }
      ghost var n;
      ok, n := fs.WriteNextSector(buffer);
      if ok {
        LandingStep(before, image, pos, Offset6(data), d, fs.growth, room, buffer[..], n);
        assert buffer[..][..n] == buffer[..n];
      }
    }

    /** The block loop of WRITE(6). */
    method StoreBlocks(numberOfBlocks: nat, ghost before: seq<byte>)
      returns (outcome: Outcome, ghost received: seq<byte>, ghost committed: nat)
      requires Wired() && host.Valid() && !host.io
      requires fs.LunOpen() && Storing(before, []) && numberOfBlocks == Blocks6(data)
      modifies buffer, host`request, host`strobes, host`nrstFlag, host`quiet, host`disturbed, host`bus
      modifies fs`fsResult, fs.vol`files, fs.vol`handle, fs.vol`room, fs.vol`closeFailed, fs.vol`faults
      ensures host.Valid() && fs.LunOpen() && fs.OnlyChanged(fs.Image(lun))
      ensures fs.vol.faults >= old(fs.vol.faults)
      ensures old(fs.vol.handle).Open? && outcome.Failed? ==> !fs.NoFault()
      ensures host.Steady()
      ensures host.bus == old(host.bus) + Samples(false, received)
      ensures committed <= numberOfBlocks
      ensures committed * SECTOR_SIZE <= |received| <= (committed + 1) * SECTOR_SIZE
      ensures outcome.Completed? ==> committed == numberOfBlocks && |received| == committed * SECTOR_SIZE
      ensures outcome.Failed? ==> |received| == (committed + 1) * SECTOR_SIZE
      ensures outcome.Interrupted? ==> host.nrstFlag
      ensures ImageAfter(before, received[..committed * SECTOR_SIZE])
    {
      hide FileSystem.LunOpen, Storing, Samples, Stored, ImageAfter, Blocks6, Lba6, FileSystem.Valid,
           HostAdapter.Valid;
      received, committed := [], 0;
      ghost var d: seq<byte> := [];
      NothingReceived();
      var currentBlock := 0;
      while currentBlock < numberOfBlocks
        invariant currentBlock == committed <= numberOfBlocks
        invariant fs.LunOpen() && Storing(before, received)
        invariant fs.OnlyChanged(fs.Image(lun))
        invariant fs.vol.faults >= old(fs.vol.faults)
        invariant old(fs.vol.handle).Open? ==> fs.vol.handle.Open?
        invariant host.Valid() && host.Steady()
        invariant |received| == committed * SECTOR_SIZE
        invariant host.bus == old(host.bus) + Samples(false, received)
      {
        d := received;
        ghost var block;
        block := ReceiveBlock();
        MoreSampled(old(host.bus), received, block);
        received := received + block;
        if host.nrstFlag {
          StoringLeaves(before, d);
          return Interrupted, received, committed;
        }
        assert block == buffer[..];
        var ok := StoreBlock(before, d);
        if !ok {
          return Failed, received, committed;
        }
        committed := committed + 1;
        currentBlock := currentBlock + 1;
      }
      StoringLeaves(before, received);
      assert received[..|received|] == received;
      return Completed, received, committed;
    }

    // ---- INQUIRY ------------------------------------------------------------------------

    /** INQUIRY leaves the status as it was. Its reply is never put on the bus: with the
        signals set for data in, the source calls the transfer from the host. When vital
        product data is asked for, the source returns no state at all. */
    method CommandInquiry() returns (next: ScsiState, ghost act: Action, ghost seg: seq<BusEvent>)
      requires Able()
      modifies this`sense, buffer, host
      ensures Able() && (act.NoAction? || act.lun == lun) && |old(sense)| == LUNS && sense == Noted(old(sense), act)
      ensures Reportable(act)
      ensures host.bus == old(host.bus) + seg && host.io == IoAfter(seg, old(host.io)) && InquiryEvents(seg)
      ensures host.Steady()
    {
      hide IoAfter;
      act, seg := NoAction, [];
      var evpd := data[1] % 2;
      var pageCode := data[2];
      NoSegment(host.io);
      if evpd != 0 {
        next := *;
        return;
      }
      if pageCode != 0 {
        sense := sense[lun := SenseData(true, true, 0x02, 0x21, sense[lun].lba)];
        act := Recorded(lun, sense[lun]);
        return Status, act, seg;
      }
      ghost var io := host.io;
      InformationTransferPhase(DataInPhase);
      var transferred;
      ghost var received;
      transferred, received := host.PerformWriteDMA(buffer);
      seg := [DATA_IN] + Samples(true, buffer[..received]);
      IoAfterPhase(seg, io);
      return Status, act, seg;
    }

    // ---- Bus states ---------------------------------------------------------------------

    /** scsiCommandSelect. When the target is selected it asserts BSY, and waits until the host
        releases SEL or resets; after 250 ms it gives up, and takes that for a reset. Polls
        within one tick count as one. */
    method CommandSelect() returns (next: ScsiState, ghost mask: byte, ghost polls: seq<Poll>)
      requires host.Valid() && !host.nrstFlag && !selFlag
      modifies this`selFlag, host`busy, host`nrstFlag, host`disturbed, host`polls, host`bus
      ensures !selFlag && host.polls == old(host.polls) + polls
      ensures host.disturbed >= old(host.disturbed)
      ensures host.nrstFlag ==> host.disturbed > old(host.disturbed) || HeldSel(polls)
      ensures host.bus == old(host.bus) + [Sample(host.io, mask)]
      ensures next == if OwnId(mask) then Command else BusBusy
      ensures next.Command? && !host.nrstFlag ==> host.busy && Awaited(polls)
      ensures Bsy(false) !in polls
      ensures next.BusBusy? ==> polls == [] && host.busy == old(host.busy) && !host.nrstFlag
    {
      var databus := host.ReadDatabus();
      mask, polls := databus, [];
      selFlag := false;
      if databus / TARGET_MASK % 2 != 1 {
        return BusBusy, mask, polls;
      }
      host.busy := true;
      var elapsed := 0;
      while !host.nrstFlag
        invariant elapsed <= SELECT_TIMEOUT && !selFlag
        invariant host.polls == old(host.polls) + polls && host.disturbed >= old(host.disturbed)
        invariant forall k :: 0 <= k < |polls| ==> polls[k] == Sel(true)
        invariant if host.nrstFlag then host.disturbed > old(host.disturbed) || HeldSel(polls)
                  else host.busy && |polls| == elapsed
        invariant host.bus == old(host.bus) + [Sample(host.io, mask)]
        decreases !host.nrstFlag, SELECT_TIMEOUT - elapsed
      {
        host.Interrupts();
        var sel := host.ReadSelectFlag();
        polls := polls + [Sel(sel)];
        if !sel {
          break;
        } else if elapsed == SELECT_TIMEOUT {
          host.busy := false;
          host.nrstFlag := true;
        } else {
          elapsed := elapsed + 1;
        }
      }
      return Command, mask, polls;
    }

    /** Receives a command descriptor block, of a length its first byte tells. For groups the
        emulation does not know, the length stays what it was. */
    method EmulationCommand() returns (next: ScsiState, ghost cdb: seq<byte>)
      requires Able()
      modifies this`data, this`length, this`lun, host
      ensures Able() && host.Steady()
      ensures WholeBlock(cdb) && next == Decode(cdb) && cdb <= data && lun == LunOf(data)
      ensures host.bus == old(host.bus) + ([COMMAND] + Samples(false, cdb)) && !host.io
    {
      hide FileSystem.Ready, Samples, Decode;
      InformationTransferPhase(CommandPhase);
      cdb := ReceiveCdb();
      lun := data[1] / 32;
      next := DecodeCommand();
      DecodeFirst(cdb, data);
    }

    method ReceiveCdb() returns (ghost cdb: seq<byte>)
      requires |data| == 12 && length <= 10 && !host.io
      modifies this`data, this`length, host`request, host`strobes, host`nrstFlag, host`quiet, host`disturbed, host`bus
      ensures |data| == 12 && length <= 10 && host.Steady()
      ensures WholeBlock(cdb) && cdb <= data
      ensures host.bus == old(host.bus) + Samples(false, cdb)
    {
      hide Samples;
      var firstByte := host.ReadByte();
      data := data[0 := firstByte];
      SamplesOne(false, firstByte);
      var group := firstByte / 32;
      if group == 0 {
        length := 6;
      } else if group == 1 {
        length := 10;
      } else if group == 6 {
        length := 6;
      }
      ghost var n := length;
      var commandDataBlockPointer := 1;
      assert data[..1] == [firstByte];
      while commandDataBlockPointer < length
        invariant 1 <= commandDataBlockPointer <= Max(n, 1) && length == n
        invariant |data| == 12 && data[0] == firstByte
        invariant host.Steady()
        invariant host.bus == old(host.bus) + Samples(false, data[..commandDataBlockPointer])
      {
        var value := host.ReadByte();
        ghost var before := data[..commandDataBlockPointer];
        data := data[commandDataBlockPointer := value];
        SampleNext(false, before, value);
        assert data[..commandDataBlockPointer + 1] == before + [value];
        commandDataBlockPointer := commandDataBlockPointer + 1;
      }
      cdb := data[..commandDataBlockPointer];
    }

    method DecodeCommand() returns (next: ScsiState)
      requires |data| == 12
      ensures next == Decode(data)
    {
      var group, opCode := data[0] / 32, data[0] % 32;
      if group == 0 {
        match opCode {
          case 0x00 => return TestUnitReady;
          case 0x01 => return RezeroUnit;
          case 0x03 => return RequestSense;
          case 0x04 => return Format;
          case 0x08 => return Read6;
          case 0x0A => return Write6;
          case 0x0B => return Seek;
          case 0x12 => return Inquiry;
          case 0x0F => return Translate;
          case 0x15 => return ModeSelect;
          case 0x1A => return ModeSense;
          case 0x1B => return StartStop;
          case _ =>
        }
      }
      if group == 1 {
        match opCode {
          case 0x0F => return Verify;
          case _ =>
        }
      }
      return BusFree;
    }

    method EmulationStatus() returns (next: ScsiState)
      requires Able()
      modifies host
      ensures Able() && next.Message? && host.io && host.Steady()
      ensures host.bus == old(host.bus) + [STATUS, Drive(true, status)]
    {
      hide FileSystem.Ready;
      InformationTransferPhase(StatusPhase);
      host.WriteByte(status);
      return Message;
    }

    method EmulationMessage() returns (next: ScsiState)
      requires Able()
      modifies host
      ensures Able() && next.BusFree? && host.io && host.Steady()
      ensures host.bus == old(host.bus) + [MESSAGE_IN, Drive(true, 0)]
    {
      hide FileSystem.Ready;
      InformationTransferPhase(MessageInPhase);
      host.WriteByte(message);
      return BusFree;
    }

    // ---- One step of the emulation --------------------------------------------------------

    /** scsiReset: no error on record, and back to bus free. */
    method Reset()
      requires |sense| == LUNS
      modifies this`sense, this`state
      ensures state.BusFree? && sense == seq(LUNS, _ => NO_SENSE)
    {
      var lunNumber := 0;
      while lunNumber < LUNS
        invariant 0 <= lunNumber <= LUNS && |sense| == LUNS
        invariant forall l :: 0 <= l < lunNumber ==> sense[l] == NO_SENSE
      {
        sense := sense[lunNumber := NO_SENSE];
        lunNumber := lunNumber + 1;
      }
      state := BusFree;
    }

    /** What every step makes of what there is to see. */
    twostate predicate Makes(t: Step)
      reads this`data, this`length, this`lun, this`status, this`message, this`sense, this`selFlag, host, fs, fs.vol
    {
      && Able() && host.disturbed >= old(host.disturbed)
      && t.lun == lun && t.status == status && t.reset == host.nrstFlag && LegalStep(t, old(host.io))
      && (t.disturbed <==> host.disturbed > old(host.disturbed))
      && host.bus == old(host.bus) + t.events && host.io == IoAfter(t.events, old(host.io))
      && host.polls == old(host.polls) + t.polls && FindsOwnBusy(t, old(host.busy))
      && (!host.nrstFlag ==> (host.busy <==> Answers(t) || old(host.busy)))
      && (Executing(t.pre) ==> t.cdb == data)
      && (if t.pre.Command? then t.cdb <= data else data == old(data))
      && |old(sense)| == LUNS && (t.action.NoAction? || t.action.lun == lun) && sense == Noted(old(sense), t.action)
      && (t.pre.Status? || t.pre.Message? ==> status == old(status))
      && (t.pre.RequestSense? ==>
            && t.action == Reported(lun) && status == 0
            && t.events == [DATA_IN] + Drives(true, EncodeSense(old(sense)[lun])))
    }

    /** And of the card. */
    twostate predicate Keeps(t: Step)
      reads this`data, this`lun, this`status, host`nrstFlag, fs, fs.vol
    {
      && fs.lunDirectory == old(fs.lunDirectory) && fs.mounted == old(fs.mounted)
      && fs.vol.faults >= old(fs.vol.faults) && (t.faulted <==> !fs.NoFault()) && t.growth == fs.growth
      && (IsCommand(t.pre) && lun < |old(fs.started)| ==> t.stopped == !old(fs.started)[lun])
      && fs.OnlyLunChanged(lun)
      && (!t.pre.Write6? && !t.pre.Format? ==> fs.ImagesKept())
      && (t.pre.Read6? ==> Reads(t.post, t.events))
      && (t.pre.Write6? ==> Writes(t.post, t.events, t.blocks))
      && (t.pre.Read6? || t.pre.Write6? ==> Served(t.post))
      && (fs.NoFault() && !t.pre.ModeSelect? ==> fs.DescriptorsKept())
      && (fs.NoFault() && t.pre.ModeSelect? ==> Selects(t.post, t.events))
      && (fs.NoFault() && t.pre.ModeSense? ==> Senses(t.post, t.events))
    }

    /** The states between commands. */
    method BusState(ghost stopped: bool) returns (next: ScsiState, ghost t: Step)
      requires Able() && !IsCommand(state) && !state.Inquiry? && !host.nrstFlag
      modifies this`selFlag, this`data, this`length, this`lun, host
      ensures Makes(t) && t.pre == state && t.post == next
      ensures !t.faulted && t.growth == fs.growth
    {
      hide Makes;
      match state {
        case BusFree =>
          next, t := FreeState(stopped);
        case BusBusy =>
          next, t := BusyState(stopped);
        case Select =>
          next, t := SelectState(stopped);
        case Command | Status | Message =>
          next, t := Transfer(stopped);
        case Undefined =>
          next := state;
          t := Step(state, next, [], [], [], lun, stopped, status, NoAction, 0, fs.growth, false, false, false);
          NothingMade(t);
      }
    }

    twostate lemma NothingMade(t: Step)
      requires Able() && host.disturbed == old(host.disturbed) && host.bus == old(host.bus) && host.io == old(host.io)
      requires host.polls == old(host.polls) && host.busy == old(host.busy) && !host.nrstFlag
      requires data == old(data) && sense == old(sense) && |sense| == LUNS
      requires state.Undefined?
      requires t == Step(state, state, [], [], [], lun, t.stopped, status, NoAction, 0, t.growth, false, false, false)
      ensures Makes(t)
    {
    }

    method FreeState(ghost stopped: bool) returns (next: ScsiState, ghost t: Step)
      requires Able() && state.BusFree? && !host.nrstFlag
      modifies this`selFlag, host
      ensures Makes(t) && t.pre == state && t.post == next
      ensures !t.faulted && t.growth == fs.growth
    {
      hide FileSystem.Ready, IoAfter, EncodeSense, LegalStep, OwnId, HeldSel, Awaited;
      NoSegment(host.io);
      next := state;
      selFlag := false;
      var sel := host.ReadSelectFlag();
      ghost var polls := [Sel(sel)];
      if sel {
        next := Select;
      } else {
        var bsy := host.ReadBusyFlag();
        polls := [Sel(false), Bsy(bsy)];
        if bsy {
          next := BusBusy;
        }
      }
      t := Step(state, next, [], polls, [], lun, stopped, status, NoAction, 0, fs.growth, false, false, false);
      WatchLegal(t, host.io);
    }

    method BusyState(ghost stopped: bool) returns (next: ScsiState, ghost t: Step)
      requires Able() && state.BusBusy? && !host.nrstFlag
      modifies this`selFlag, host
      ensures Makes(t) && t.pre == state && t.post == next
      ensures !t.faulted && t.growth == fs.growth
    {
      hide FileSystem.Ready, IoAfter, EncodeSense, LegalStep, OwnId, HeldSel, Awaited;
      ghost var events, polls := [], [];
      NoSegment(host.io);
      next := state;
      var sel := host.ReadSelectFlag();
      if sel || selFlag {
        next, events, polls := Selecting();
        OneMorePoll(polls);
        polls := [Sel(true)] + polls;
      } else {
        var bsy := host.ReadBusyFlag();
        polls := [Sel(false), Bsy(bsy)];
        if !bsy {
          next := BusFree;
        }
      }
      t := Step(state, next, events, polls, [], lun, stopped, status, NoAction, 0, fs.growth, false,
                host.disturbed > old(host.disturbed), host.nrstFlag);
      WatchLegal(t, host.io);
    }

    method SelectState(ghost stopped: bool) returns (next: ScsiState, ghost t: Step)
      requires Able() && state.Select? && !host.nrstFlag
      modifies this`selFlag, host
      ensures Makes(t) && t.pre == state && t.post == next
      ensures !t.faulted && t.growth == fs.growth
    {
      hide FileSystem.Ready, IoAfter, EncodeSense, LegalStep, OwnId, HeldSel, Awaited;
      ghost var events, polls;
      next, events, polls := Selecting();
      t := Step(state, next, events, polls, [], lun, stopped, status, NoAction, 0, fs.growth, false,
                host.disturbed > old(host.disturbed), host.nrstFlag);
      WatchLegal(t, host.io);
    }

    lemma OneMorePoll(polls: seq<Poll>)
      ensures HeldSel(polls) ==> HeldSel([Sel(true)] + polls)
    {
    }

    /** The phases in which a command block, the status and the message are transferred. */
    method Transfer(ghost stopped: bool) returns (next: ScsiState, ghost t: Step)
      requires Able() && (state.Command? || state.Status? || state.Message?) && !host.nrstFlag
      modifies this`data, this`length, this`lun, host
      ensures Makes(t) && t.pre == state && t.post == next
      ensures !t.faulted && t.growth == fs.growth
    {
      hide FileSystem.Ready, IoAfter, EncodeSense, Decode, OwnId, HeldSel, Awaited, Samples, WholeBlock;
      ghost var events, cdb, io := [], [], host.io;
      match state {
        case Command =>
          next, cdb := EmulationCommand();
          events := [COMMAND] + Samples(false, cdb);
        case Status =>
          next := EmulationStatus();
          events := [STATUS, Drive(true, status)];
        case Message =>
          next := EmulationMessage();
          events := [MESSAGE_IN, Drive(true, 0)];
      }
      IoAfterPhase(events, io);
      t := Step(state, next, events, [], cdb, lun, stopped, status, NoAction, 0, fs.growth, false,
                host.disturbed > old(host.disturbed), host.nrstFlag);
    }

    method Selecting() returns (next: ScsiState, ghost events: seq<BusEvent>, ghost polls: seq<Poll>)
      requires host.Valid() && !host.nrstFlag && !selFlag
      modifies this`selFlag, host`busy, host`nrstFlag, host`disturbed, host`polls, host`bus
      ensures !selFlag && host.polls == old(host.polls) + polls
      ensures host.disturbed >= old(host.disturbed)
      ensures host.nrstFlag ==> host.disturbed > old(host.disturbed) || HeldSel(polls)
      ensures |events| == 1 && events[0].Sample? && events[0].io == host.io
      ensures next == if OwnId(events[0].value) then Command else BusBusy
      ensures next.Command? && !host.nrstFlag ==> host.busy && Awaited(polls)
      ensures Bsy(false) !in polls
      ensures next.BusBusy? ==> polls == [] && host.busy == old(host.busy) && !host.nrstFlag
      ensures host.bus == old(host.bus) + events && host.io == IoAfter(events, host.io)
    {
      hide OwnId;
      ghost var mask;
      next, mask, polls := CommandSelect();
      events := [Sample(host.io, mask)];
      assert events[..0] == [];
    }

    /** What a command makes of what there is to see and of the card; `blocks` are those WRITE(6) has
        stored. A stopped LUN fails VERIFY with no error on record. */
    twostate predicate Conducts(next: ScsiState, act: Action, seg: seq<BusEvent>, blocks: nat)
      reads this, host, fs, fs.vol
    {
      && Executed(next, act, seg)
      && (if state.Verify? && lun < |old(fs.started)| && !old(fs.started)[lun] then
            act.NoAction? && status == CheckCondition(lun)
          else Accounted(next, act))
      && (state.RequestSense? ==>
            && next.Status? && act == Reported(lun) && status == 0 && lun < |old(sense)|
            && seg == [DATA_IN] + Drives(true, EncodeSense(old(sense)[lun])))
      && fs.OnlyLunChanged(lun)
      && (!state.Write6? && !state.Format? ==> fs.ImagesKept())
      && (state.Read6? ==> Reads(next, seg))
      && (state.Write6? ==> Writes(next, seg, blocks))
      && (state.Read6? || state.Write6? ==> Served(next))
      && (fs.NoFault() && !state.ModeSelect? ==> fs.DescriptorsKept())
      && (fs.NoFault() && state.ModeSelect? ==> Selects(next, seg))
      && (fs.NoFault() && state.ModeSense? ==> Senses(next, seg))
    }

    method ExecuteCommand() returns (next: ScsiState, ghost act: Action, ghost seg: seq<BusEvent>, ghost blocks: nat)
      requires Able() && IsCommand(state)
      modifies this`status, this`message, this`sense, buffer, host, fs, fs.vol, fs.sectorBuffer
      ensures Conducts(next, act, seg, blocks)
    {
      hide Conducts;
      blocks := 0;
      match state {
        case TestUnitReady | RezeroUnit | Seek | RequestSense | StartStop =>
          next, act, seg := ExecuteControl();
        case Format | Read6 | Write6 =>
          next, act, seg, blocks := ExecuteTransfer();
        case Translate | ModeSelect | ModeSense | Verify =>
          next, act, seg := ExecuteDescriptor();
      }
    }

    method ExecuteControl() returns (next: ScsiState, ghost act: Action, ghost seg: seq<BusEvent>)
      requires Able()
      requires state.TestUnitReady? || state.RezeroUnit? || state.Seek? || state.RequestSense? || state.StartStop?
      modifies this`status, this`message, this`sense, buffer, host, fs, fs.vol, fs.sectorBuffer
      ensures Conducts(next, act, seg, 0)
    {
      assert lun < |sense|;
      hide Executed, Able, FileSystem.OnlyChanged, FileSystem.OnlyLunChanged, FileSystem.ImagesKept, EncodeSense,
           Reads, Writes, Transferred, ImageAfter, FromImage;
      seg := [];
      match state {
        case TestUnitReady | RezeroUnit | Seek =>
          next, act := CommandTestUnitReady();
          NoFileChanged();
        case RequestSense =>
          next, act, seg := CommandRequestSense();
          NoFileChanged();
        case StartStop =>
          next, act := CommandStartStop();
          DescriptorChanged();
      }
    }

    method ExecuteTransfer() returns (next: ScsiState, ghost act: Action, ghost seg: seq<BusEvent>, ghost blocks: nat)
      requires Able() && (state.Format? || state.Read6? || state.Write6?)
      modifies this`status, this`message, this`sense, buffer, host, fs, fs.vol, fs.sectorBuffer
      ensures Conducts(next, act, seg, blocks)
    {
      hide Executed, Able, FileSystem.OnlyChanged, FileSystem.OnlyLunChanged, FileSystem.ImagesKept, EncodeSense,
           Reads, Writes, Transferred, ImageAfter, FromImage;
      blocks := 0;
      match state {
        case Format =>
          ghost var list, dsc, read, running;
          next, act, seg, list, dsc, read, running := CommandFormat();
        case Read6 =>
          ghost var sent;
          next, act, seg, sent := CommandRead6();
          DescriptorChanged();
        case Write6 =>
          ghost var received;
          next, act, seg, received, blocks := CommandWrite6();
      }
    }

    method ExecuteDescriptor() returns (next: ScsiState, ghost act: Action, ghost seg: seq<BusEvent>)
      requires Able() && (state.Translate? || state.ModeSelect? || state.ModeSense? || state.Verify?)
      modifies this`status, this`message, this`sense, buffer, host, fs, fs.vol, fs.sectorBuffer
      ensures Conducts(next, act, seg, 0)
    {
      assert |data| == 12;
      hide Executed, Able, FileSystem.OnlyChanged, FileSystem.OnlyLunChanged, FileSystem.ImagesKept, EncodeSense,
           Reads, Writes, Transferred, ImageAfter, FromImage;
      seg := [];
      match state {
        case Translate =>
          ghost var dsc, read;
          next, act, seg, dsc, read := CommandTranslate();
          NoFileChanged();
        case ModeSelect =>
          next, act, seg := CommandModeSelect();
          DescriptorChanged();
        case ModeSense =>
          ghost var read;
          next, act, seg, read := CommandModeSense();
          NoFileChanged();
          if status == 0 && read && |fs.vol.files[fs.Descriptor(lun)]| >= DSC_LENGTH {
            PayloadIn(fs.vol.files[fs.Descriptor(lun)][..DSC_LENGTH]);
          }
        case Verify =>
          ghost var found, dsc, read;
          next, act, found, dsc, read := CommandVerify();
          NoFileChanged();
      }
    }

    twostate lemma NoFileChanged()
      requires fs.vol.files == old(fs.vol.files)
      ensures fs.OnlyLunChanged(lun) && fs.ImagesKept() && fs.DescriptorsKept()
    {
    }

    twostate lemma DescriptorChanged()
      requires fs.OnlyChanged(fs.Descriptor(lun))
      ensures fs.OnlyLunChanged(lun) && fs.ImagesKept()
    {
    }

    /** MODE SELECT as a whole, if FatFs does not fail: no other descriptor has changed. */
    twostate predicate Selects(next: ScsiState, seg: seq<BusEvent>)
      reads this`data, this`lun, this`status, fs`lunDirectory, fs`growth, fs.vol`files, fs.vol`room
    {
      var succeeded := next.Status? && status == 0;
      && |data| == 12 && fs.OnlyChanged(fs.Descriptor(lun))
      && (data[4] != DSC_LENGTH ==> !succeeded)
      && (data[4] == DSC_LENGTH && HadDescriptor() ==> succeeded)
      && (succeeded ==> StoresDescriptor(seg))
    }

    /** MODE SENSE as a whole, if FatFs does not fail. */
    twostate predicate Senses(next: ScsiState, seg: seq<BusEvent>)
      reads this`data, this`lun, this`status, fs`lunDirectory
    {
      var succeeded := next.Status? && status == 0;
      && |data| == 12
      && (succeeded <==> data[4] == DSC_LENGTH && HadDescriptor())
      && (succeeded && |old(fs.vol.files)[fs.Descriptor(lun)]| >= DSC_LENGTH ==>
            Payload(seg) == old(fs.vol.files)[fs.Descriptor(lun)][..DSC_LENGTH])
    }

    ghost function OnCard(): Media
      reads fs`started, fs`mounted, fs.vol`files
    {
      Media(fs.vol.files, fs.started, fs.mounted)
    }

    /** What a step that keeps to its LUN does to the card. */
    twostate lemma StepRound(t: Step)
      requires Wired() && t.lun == lun && old(fs.Ready()) && Keeps(t)
      requires Executing(t.pre) ==> t.cdb == data && t.status == status
      requires t.reset == host.nrstFlag
      ensures RoundOk(t, old(OnCard()), OnCard(), fs.lunDirectory)
    {
      StepImages(t);
      StepDescriptors(t);
      hide ImagesOk, DescriptorsOk, FileSystem.OnlyLunChanged, FileSystem.ImagesKept, FileSystem.DescriptorsKept,
           Reads, Writes, Selects, Senses;
    }

    twostate lemma StepImages(t: Step)
      requires Wired() && t.lun == lun && Keeps(t)
      requires Executing(t.pre) ==> t.cdb == data && t.status == status
      ensures ImagesOk(t, old(OnCard()), OnCard(), fs.lunDirectory)
    {
      hide Delivered, Committed, Selects, Senses, Served, FileSystem.DescriptorsKept;
    }

    twostate lemma StepDescriptors(t: Step)
      requires Wired() && t.lun == lun && Keeps(t)
      requires Executing(t.pre) ==> t.cdb == data && t.status == status
      ensures DescriptorsOk(t, old(OnCard()), OnCard(), fs.lunDirectory)
    {
      hide Reads, Writes, Served, Payload, Fat.Overwrite, FileSystem.OnlyLunChanged, FileSystem.ImagesKept;
    }

    /** scsiProcessEmulation. Whatever state it is called in and whatever the host and the card
        do, it makes one legal step, leaves no file open but one that f_close could not close,
        changes no file of another LUN, and no image except in WRITE(6) and FORMAT. */
    method ProcessEmulation() returns (ghost t: Step)
      requires Able() && !host.nrstFlag
      modifies this, buffer, host, fs, fs.vol, fs.sectorBuffer
      ensures Makes(t) && Keeps(t)
      ensures t.pre == old(state) && t.post == state
    {
      hide Makes, Keeps, FileSystem.Ready;
      var next;
      if IsCommand(state) || state.Inquiry? {
        next, t := ProcessCommand();
      } else {
        next, t := BusState(!fs.started[lun]);
        CardUntouched(t);
      }
      state := next;
    }

    twostate lemma CardUntouched(t: Step)
      requires fs.vol.files == old(fs.vol.files) && fs.started == old(fs.started)
      requires fs.lunDirectory == old(fs.lunDirectory) && fs.mounted == old(fs.mounted)
      requires fs.vol.faults == old(fs.vol.faults) && !t.faulted && t.growth == fs.growth
      requires !IsCommand(t.pre)
      ensures Keeps(t)
    {
    }

    /** The states in which a command is carried out. */
    method ProcessCommand() returns (next: ScsiState, ghost t: Step)
      requires Able() && Executing(state) && !host.nrstFlag
      modifies this`status, this`message, this`sense, buffer, host, fs, fs.vol, fs.sectorBuffer
      ensures Makes(t) && Keeps(t)
      ensures t.pre == state && t.post == next
    {
      hide LegalStep, FileSystem.OnlyLunChanged, FileSystem.ImagesKept, FileSystem.DescriptorsKept, FileSystem.Ready,
           IoAfter, EncodeSense, Reads, Writes, Served, Selects, Senses, Drives, Reportable, HostAdapter.Valid;
      ghost var stopped, act, events, blocks := !fs.started[lun], NoAction, [], 0;
      if state.Inquiry? {
        next, act, events := CommandInquiry();
        NoFileChanged();
      } else {
        next, act, events, blocks := ExecuteCommand();
      }
      t := Step(state, next, events, [], data, lun, stopped, status, act, blocks, fs.growth, !fs.NoFault(),
                host.disturbed > old(host.disturbed), host.nrstFlag);
      CommandLegal(t, old(host.io));
    }
  }

  lemma AddressErrorIsReportable(lun: nat, lba: uint32)
    ensures Reportable(Recorded(lun, SenseData(true, true, 0x02, 0x21, lba)))
  {
  }

  lemma WatchLegal(t: Step, io: bool)
    requires t.action.NoAction? && (t.reset ==> t.disturbed || HeldSel(t.polls))
    requires
      || (t.pre.BusFree? && t.events == [] && t.post.Select? && t.polls == [Sel(true)])
      || ((t.pre.BusFree? || t.pre.BusBusy?) && Passed(t))
      || (t.pre.BusBusy? && t.polls != [] && t.polls[0] == Sel(true) && Selection(t, io, t.polls[1..]))
      || (t.pre.Select? && Selection(t, io, t.polls))
    ensures LegalStep(t, io)
  {
    hide HeldSel, Selection, Passed;
  }

  lemma CommandLegal(t: Step, io: bool)
    requires Reportable(t.action) && (t.action.NoAction? || t.action.lun == t.lun)
    requires t.polls == [] && (t.reset ==> t.disturbed)
    requires if t.pre.Inquiry? then InquiryEvents(t.events)
             else IsCommand(t.pre) && DataPhase(t.events) && (t.post.Status? || (t.post.BusFree? && t.reset))
    requires !t.pre.Inquiry? ==>
               if t.pre.Verify? && t.stopped then t.status == CheckCondition(t.lun) && t.action.NoAction?
               else t.post.Status? && t.status != 0 ==> t.status == CheckCondition(t.lun) && t.action.Recorded?
    ensures LegalStep(t, io)
  {
  }

  /** The first byte tells the command. */
  lemma DecodeFirst(cdb: seq<byte>, data: seq<byte>)
    requires |cdb| >= 1 && cdb <= data
    ensures Decode(cdb) == Decode(data)
  {
  }

  /** How the block loop of a transfer ends. */
  datatype Outcome = Completed | Failed | Interrupted

  lemma NothingSent(image: seq<byte>, offset: nat)
    ensures Drives(true, []) == [] && Carries([], image, offset)
  {
  }

  lemma MoreSampled(bus: seq<BusEvent>, d: seq<byte>, block: seq<byte>)
    ensures bus + Samples(false, d) + Samples(false, block) == bus + Samples(false, d + block)
    ensures (d + block)[..|d|] == d
  {
    SamplesAppend(false, d, block);
  }

  lemma NothingReceived()
    ensures Samples(false, []) == []
  {
  }
}
