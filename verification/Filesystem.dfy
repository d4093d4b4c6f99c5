/** LUN images on the SD card: filesystem.c. */
module Filesystem {
  import opened Arithmetic
  import opened Bytes
  import opened Geometry
  import opened Fat
  import opened FatResults

  const LUNS: nat := 8

  class FileSystem {
    const vol: Volume
    const sectorBuffer: array<byte>
    /** SECTOR_BUFFER_LENGTH, in sectors. */
    const bufferLength: nat
    var fsResult: FResult
    var mounted: bool
    var lunDirectory: byte
    var started: seq<bool>
    var lunOpenFlag: bool
    var sectorsInBuffer: nat
    var currentBufferSector: nat
    var sectorsRemaining: nat
    /** The read in progress: first sector, sectors asked for, sectors handed out. */
    ghost var first: nat
    ghost var total: nat
    ghost var delivered: nat
    /** What the file opened for writing could grow by when it was opened. */
    ghost var growth: nat
    /** An open has been refused because a LUN image was already open. */
    ghost var rejected: bool

    ghost predicate Valid()
      reads this`started, vol
    {
      && bufferLength >= 1 && sectorBuffer.Length == bufferLength * SECTOR_SIZE
      && |started| == LUNS && vol.Valid()
    }

    function Image(lun: nat): FileName
      reads this`lunDirectory
    {
      FileName(lunDirectory, lun, Dat)
    }

    function Descriptor(lun: nat): FileName
      reads this`lunDirectory
    {
      FileName(lunDirectory, lun, Dsc)
    }

    /** A started LUN can be used: the card is mounted and the image is there. */
    ghost predicate Usable()
      reads this`started, this`mounted, this`lunDirectory, vol`files
    {
      && |started| == LUNS
      && forall lun :: 0 <= lun < LUNS && started[lun] ==> mounted && Image(lun) in vol.files
    }

    /** No LUN image is open and none has ever been found open. */
    ghost predicate Idle()
      reads this, vol
    {
      !lunOpenFlag && vol.Released() && !rejected
    }

    ghost predicate Ready()
      reads this, vol
      ensures Ready() ==> Valid() && vol.Released()
    {
      Valid() && Usable() && Idle()
    }

    /** No file but `name` has changed, and none has gone. */
    twostate predicate OnlyChanged(name: FileName)
      reads vol`files
    {
      && (forall n :: n in old(vol.files) ==> n in vol.files)
      && (forall n :: n != name && n in vol.files ==> n in old(vol.files) && vol.files[n] == old(vol.files)[n])
    }

    /** No call has failed for reasons of its own. */
    twostate predicate NoFault()
      reads vol`faults
    {
      vol.faults == old(vol.faults)
    }

    /** The file is as it was, or empty, or not there. */
    twostate predicate KeptOrEmptied(name: FileName)
      reads vol`files
    {
      name in vol.files ==>
        vol.files[name] == [] || (name in old(vol.files) && vol.files[name] == old(vol.files)[name])
    }

    /** No file but those of one LUN has changed, and none has gone. */
    twostate predicate OnlyLunChanged(lun: nat)
      reads this`lunDirectory, vol`files
    {
      && (forall n :: n in old(vol.files) ==> n in vol.files)
      && (forall n :: n != Image(lun) && n != Descriptor(lun) && n in vol.files ==>
            n in old(vol.files) && vol.files[n] == old(vol.files)[n])
    }

    constructor (card: Volume, length: nat)
      requires card.Valid() && card.Released() && length >= 1
      ensures Valid() && !mounted && lunDirectory == 0 && !lunOpenFlag && !rejected
      ensures started == seq(LUNS, _ => false)
      ensures vol == card && fresh(sectorBuffer) && bufferLength == length
      ensures Ready()
    {
      vol, bufferLength := card, length;
      sectorBuffer := new byte[length * SECTOR_SIZE](_ => 0);
      fsResult, mounted, lunDirectory, lunOpenFlag, rejected := FR_OK, false, 0, false, false;
      started := seq(LUNS, _ => false);
      sectorsInBuffer, currentBufferSector, sectorsRemaining := 0, 0, 0;
      first, total, delivered, growth := 0, 0, 0, 0;
    }

    // ---- Descriptors --------------------------------------------------------------

    /** Reads the descriptor into `buffer`. A read error goes unnoticed: the test for it also
        asks for a full count. `dsc` is the descriptor file, if it has been read. */
    method ReadDescriptorFile(dir: byte, lun: nat, buffer: array<byte>)
      returns (found: bool, ghost read: bool)
      requires Valid() && vol.Released() && buffer.Length >= DSC_LENGTH
      modifies this`fsResult, vol`files, vol`handle, vol`room, vol`closeFailed, vol`openResult, vol`faults, buffer
      ensures vol.faults >= old(vol.faults)
      ensures Valid() && vol.Released() && vol.files == old(vol.files)
      ensures found ==> FileName(dir, lun, Dsc) in vol.files
      ensures found <==> vol.openResult.FR_OK?
      ensures read <==> found && fsResult.FR_OK?
      ensures NoFault() ==> (found <==> FileName(dir, lun, Dsc) in vol.files) && (read <==> found)
      ensures read && |vol.files[FileName(dir, lun, Dsc)]| >= DSC_LENGTH ==>
                buffer[..DSC_LENGTH] == vol.files[FileName(dir, lun, Dsc)][..DSC_LENGTH]
      ensures buffer[DSC_LENGTH..] == old(buffer[..])[DSC_LENGTH..]
    {
      read := false;
      fsResult := vol.OpenFile(FileName(dir, lun, Dsc), Read);
      found := fsResult.FR_OK?;
      if found {
        var fsCounter;
        fsResult, fsCounter := vol.ReadBytes(buffer, DSC_LENGTH);
        read := fsResult.FR_OK?;
      }
      vol.Close();
    }

    /** Succeeds also when f_read has failed; only a failing f_open is an error. */
    method ReadLunDescriptor(lun: nat, buffer: array<byte>) returns (ok: bool, ghost read: bool)
      requires Ready() && buffer.Length >= DSC_LENGTH
      modifies this`fsResult, vol`files, vol`handle, vol`room, vol`closeFailed, vol`openResult, vol`faults, buffer
      ensures vol.faults >= old(vol.faults)
      ensures Ready() && vol.files == old(vol.files)
      ensures ok ==> Descriptor(lun) in vol.files
      ensures ok <==> vol.openResult.FR_OK?
      ensures read <==> ok && fsResult.FR_OK?
      ensures NoFault() ==> (ok <==> Descriptor(lun) in vol.files) && (read <==> ok)
      ensures read && |vol.files[Descriptor(lun)]| >= DSC_LENGTH ==>
                buffer[..DSC_LENGTH] == vol.files[Descriptor(lun)][..DSC_LENGTH]
    {
      ok, read := ReadDescriptorFile(lunDirectory, lun, buffer);
    }

    method GetLunSizeFromDsc(dir: byte, lun: nat) returns (size: uint32, ghost read: bool)
      requires Valid() && vol.Released()
      modifies this`fsResult, vol`files, vol`handle, vol`room, vol`closeFailed, vol`openResult, vol`faults, sectorBuffer
      ensures vol.faults >= old(vol.faults)
      ensures Valid() && vol.Released() && vol.files == old(vol.files)
      ensures read ==> FileName(dir, lun, Dsc) in vol.files
      ensures NoFault() ==> (read <==> FileName(dir, lun, Dsc) in vol.files)
      ensures read && |vol.files[FileName(dir, lun, Dsc)]| == DSC_LENGTH ==>
                size == SizeFromDsc(vol.files[FileName(dir, lun, Dsc)])
    {
      var found;
      found, read := ReadDescriptorFile(dir, lun, sectorBuffer);
      size := if found then SizeFromDsc(sectorBuffer[..DSC_LENGTH]) else 0;
    }

    method CopyToBuffer(d: seq<byte>)
      requires |d| <= sectorBuffer.Length
      modifies sectorBuffer
      ensures sectorBuffer[..|d|] == d
    {
      forall k | 0 <= k < |d| {
        sectorBuffer[k] := d[k];
      }
    }

    /** Computes the geometry, and the descriptor in the sector buffer. */
    method MakeDescriptor(lunFileSize: uint32)
      requires Valid()
      modifies sectorBuffer
      ensures sectorBuffer[..DSC_LENGTH] == DescriptorFor(lunFileSize)
    {
      hide DescriptorBytes, Divides, Quotient;
      var tracks: uint32 := lunFileSize / TRACK_BYTES;
      var heads := FindHeads(tracks);
      var cylinders: uint32 := Quotient(tracks, heads);
      CopyToBuffer(DescriptorBytes(cylinders, heads));
    }

    /** f_write of `d` to the front of the file just opened. */
    method WriteFront(d: seq<byte>) returns (written: bool)
      requires Valid() && !vol.closeFailed && vol.handle.Open? && vol.handle.pos == 0 && vol.handle.writable
      modifies this`fsResult, vol`files, vol`handle, vol`room, vol`faults
      ensures vol.faults >= old(vol.faults)
      ensures Valid() && vol.handle.Open? && vol.handle.name == old(vol.handle).name
      ensures var name := old(vol.handle).name;
              && OnlyChanged(name) && name in vol.files
              && (written ==> fsResult.FR_OK? && vol.files[name] == Overwrite(old(vol.files)[name], 0, d))
              && (NoFault() ==> Rewritten(old(vol.files)[name], vol.files[name], d, old(vol.room), vol.room))
      ensures !fsResult.FR_OK? ==> vol.files == old(vol.files)
    {
      var fsCounter;
      fsResult, fsCounter := vol.WriteBytes(d);
      written := fsResult.FR_OK? && fsCounter == |d|;
      assert d[..|d|] == d;
    }

    /** Makes the descriptor for an image of a given size, as much of it as there is room for.
        `written` tells whether f_write has written all of it; the result does not. */
    method CreateDscFromLunImage(dir: byte, lun: nat, lunFileSize: uint32)
      returns (ok: bool, ghost written: bool)
      requires Valid() && vol.Released()
      modifies this`fsResult, this`growth, sectorBuffer
      modifies vol`files, vol`handle, vol`room, vol`closeFailed, vol`openResult, vol`faults
      ensures vol.faults >= old(vol.faults)
      ensures Valid() && vol.Released()
      ensures OnlyChanged(FileName(dir, lun, Dsc))
      ensures written ==> ok && FileName(dir, lun, Dsc) in vol.files
      ensures written ==> vol.files[FileName(dir, lun, Dsc)] == DescriptorFor(lunFileSize)
      ensures NoFault() && (FileName(dir, lun, Dsc) in old(vol.files) || dir in vol.dirs) ==> ok
      ensures NoFault() && ok ==>
                && FileName(dir, lun, Dsc) in vol.files && |vol.files[FileName(dir, lun, Dsc)]| + vol.room == growth
                && vol.files[FileName(dir, lun, Dsc)] == DescriptorFor(lunFileSize)[..Min(DSC_LENGTH, growth)]
    {
      hide DescriptorFor;
      written := false;
      MakeDescriptor(lunFileSize);
      fsResult := vol.OpenFile(FileName(dir, lun, Dsc), CreateAlways);
      growth := vol.room;
      ok := fsResult.FR_OK?;
      if ok {
        var whole := WriteFront(sectorBuffer[..DSC_LENGTH]);
        written := whole;
        OverwriteNothing(DescriptorFor(lunFileSize), growth);
      }
      vol.Close();
    }

    /** filesystemWriteLunDescriptor: the descriptor overwritten from its start, as far as there is
        room. `written` tells whether f_write has written all of it; the result does not. */
    method WriteLunDescriptor(lun: nat, d: seq<byte>) returns (ok: bool, ghost written: bool)
      requires Ready() && |d| == DSC_LENGTH
      modifies this`fsResult, this`growth, vol`files, vol`handle, vol`room, vol`closeFailed, vol`openResult, vol`faults
      ensures vol.faults >= old(vol.faults)
      ensures Ready() && OnlyChanged(Descriptor(lun))
      ensures ok ==> Descriptor(lun) in old(vol.files)
      ensures ok <==> vol.openResult.FR_OK?
      ensures written ==> ok && fsResult.FR_OK?
      ensures !fsResult.FR_OK? ==> vol.files == old(vol.files)
      ensures written ==>
                vol.files[Descriptor(lun)] == Overwrite(old(vol.files)[Descriptor(lun)], 0, d)
      ensures NoFault() ==> (ok <==> Descriptor(lun) in old(vol.files))
      ensures NoFault() && ok ==>
                && Descriptor(lun) in vol.files
                && Rewritten(old(vol.files)[Descriptor(lun)], vol.files[Descriptor(lun)], d, growth, vol.room)
    {
      written := false;
      fsResult := vol.OpenFile(Descriptor(lun), ReadWrite);
      growth := vol.room;
      ok := fsResult.FR_OK?;
      if ok {
        var whole := WriteFront(d);
        written := whole;
      }
      vol.Close();
    }

    /** Makes an empty file unless there is one. */
    method CreateEmpty(name: FileName) returns (ok: bool)
      requires Ready()
      modifies this`fsResult, vol`files, vol`handle, vol`room, vol`closeFailed, vol`openResult, vol`faults
      ensures vol.faults >= old(vol.faults)
      ensures Ready() && OnlyChanged(name)
      ensures name in old(vol.files) ==> vol.files == old(vol.files)
      ensures ok ==> name in vol.files && (name !in old(vol.files) ==> vol.files[name] == [])
      ensures NoFault() && (name in old(vol.files) || name.dir in vol.dirs) ==> ok
      ensures KeptOrEmptied(name)
    {
      fsResult := vol.OpenFile(name, Read);
      if fsResult.FR_OK? {
        vol.Close();
        return true;
      }
      fsResult := vol.OpenFile(name, CreateNew);
      ok := fsResult.FR_OK?;
      vol.Close();
    }

    method CreateLunImage(lun: nat) returns (ok: bool)
      requires Ready()
      modifies this`fsResult, vol`files, vol`handle, vol`room, vol`closeFailed, vol`openResult, vol`faults
      ensures vol.faults >= old(vol.faults)
      ensures Ready() && OnlyChanged(Image(lun))
      ensures Image(lun) in old(vol.files) ==> vol.files == old(vol.files)
      ensures ok ==> Image(lun) in vol.files
      ensures ok && Image(lun) !in old(vol.files) ==> vol.files[Image(lun)] == []
      ensures NoFault() && (Image(lun) in old(vol.files) || lunDirectory in vol.dirs) ==> ok
      ensures KeptOrEmptied(Image(lun))
    {
      ok := CreateEmpty(Image(lun));
    }

    method CreateLunDescriptor(lun: nat) returns (ok: bool)
      requires Ready()
      modifies this`fsResult, vol`files, vol`handle, vol`room, vol`closeFailed, vol`openResult, vol`faults
      ensures vol.faults >= old(vol.faults)
      ensures Ready() && OnlyChanged(Descriptor(lun))
      ensures Descriptor(lun) in old(vol.files) ==> vol.files == old(vol.files)
      ensures ok ==> Descriptor(lun) in vol.files
      ensures ok && Descriptor(lun) !in old(vol.files) ==> vol.files[Descriptor(lun)] == []
      ensures NoFault() && (Descriptor(lun) in old(vol.files) || lunDirectory in vol.dirs) ==> ok
    {
      ok := CreateEmpty(Descriptor(lun));
    }

    /** Replaces the image by a file of the size the descriptor asks for. `dsc` are the bytes
        that size is computed from, and `read` says that they are those of the file. */
    method FormatLun(lun: nat) returns (ok: bool, ghost dsc: seq<byte>, ghost read: bool)
      requires Ready()
      modifies this`fsResult, vol`files, vol`handle, vol`room, vol`closeFailed, vol`openResult, vol`faults, sectorBuffer
      ensures vol.faults >= old(vol.faults)
      ensures Ready() && OnlyChanged(Image(lun))
      ensures |dsc| == DSC_LENGTH
      ensures ok ==> Image(lun) in vol.files && |vol.files[Image(lun)]| == FormatSize(dsc)
      ensures read ==> Descriptor(lun) in vol.files
      ensures read && |vol.files[Descriptor(lun)]| >= DSC_LENGTH ==> dsc == vol.files[Descriptor(lun)][..DSC_LENGTH]
      ensures NoFault() ==> (read <==> Descriptor(lun) in vol.files)
      ensures NoFault() && ok ==> read
      ensures !ok ==> KeptOrEmptied(Image(lun))
      ensures NoFault() && Image(lun) in old(vol.files) ==> (ok <==> read && FormatSize(dsc) != 0)
    {
      hide Sectors;
      ok, read := ReadLunDescriptor(lun, sectorBuffer);
      dsc := sectorBuffer[..DSC_LENGTH];
      if !ok {
        return;
      }
      var requiredNumberOfSectors := Sectors(sectorBuffer[..DSC_LENGTH]);
      ok := ExpandImage(lun, ToU32(requiredNumberOfSectors * SECTOR_SIZE));
    }

    /** Makes an image of a given size, in place of the one there may be. */
    method ExpandImage(lun: nat, size: uint32) returns (ok: bool)
      requires Ready()
      modifies this`fsResult, vol`files, vol`handle, vol`room, vol`closeFailed, vol`openResult, vol`faults
      ensures vol.faults >= old(vol.faults)
      ensures Ready() && OnlyChanged(Image(lun))
      ensures ok ==> Image(lun) in vol.files && |vol.files[Image(lun)]| == size
      ensures NoFault() && Image(lun) in old(vol.files) ==> (ok <==> size != 0)
      ensures !ok ==> KeptOrEmptied(Image(lun))
    {
      fsResult := vol.OpenFile(Image(lun), CreateAlways);
      ok := fsResult.FR_OK?;
      if ok {
        fsResult := vol.Expand(size);
        ok := fsResult.FR_OK?;
      }
      vol.Close();
    }

    // ---- Starting and stopping LUNs -------------------------------------------------

    method CheckLunDirectory(dir: byte) returns (ok: bool)
      requires Valid()
      modifies this`fsResult, vol`dirs, vol`faults
      ensures vol.faults >= old(vol.faults)
      ensures ok ==> mounted && dir in vol.dirs
      ensures NoFault() ==> (ok <==> mounted)
    {
      if !mounted {
        return false;
      }
      fsResult := vol.OpenDir(dir);
      if !fsResult.FR_OK? && !fsResult.FR_NO_PATH? {
        return false;
      }
      if fsResult.FR_NO_PATH? {
        fsResult := vol.MkDir(dir);
        fsResult := vol.OpenDir(dir);
        if !fsResult.FR_OK? {
          return false;
        }
      }
      return true;
    }

    /** filesystemGetUserCodeFromUcd; the five bytes go to `userCode`. */
    method GetUserCodeFromUcd(dir: byte, lun: nat, userCode: array<byte>)
      requires Valid() && vol.Released() && userCode.Length == 5
      modifies this`fsResult, vol`files, vol`handle, vol`room, vol`closeFailed, vol`openResult, vol`faults, userCode
      ensures vol.faults >= old(vol.faults)
      ensures Valid() && vol.Released() && vol.files == old(vol.files)
    {
      fsResult := vol.OpenFile(FileName(dir, lun, Ucd), Read);
      if fsResult.FR_OK? {
        var fsCounter;
        fsResult, fsCounter := vol.ReadBytes(userCode, 5);
        vol.Close();
      }
    }

    /** The descriptor is that of the image, as much of it as there was room for. */
    ghost predicate Described(lun: nat)
      reads this`lunDirectory, this`growth, vol`files
    {
      && Image(lun) in vol.files && Descriptor(lun) in vol.files
      && vol.files[Descriptor(lun)]
         == DescriptorFor(ToU32(|vol.files[Image(lun)]|))[..Min(DSC_LENGTH, growth)]
    }

    /** A descriptor that is there is left alone, and one that is not is made. */
    twostate predicate DescriptorSeenTo(lun: nat)
      reads this`lunDirectory, this`growth, vol`files
    {
      if Descriptor(lun) in old(vol.files) then vol.files == old(vol.files) else Described(lun)
    }

    /** Looks for the descriptor of an image; makes one if it cannot be opened. */
    method CheckDescriptor(lun: nat, lunFileSize: uint32)
      requires Ready() && lun < LUNS
      requires Image(lun) in vol.files && lunFileSize == ToU32(|vol.files[Image(lun)]|)
      modifies this`fsResult, this`growth, sectorBuffer
      modifies vol`files, vol`handle, vol`room, vol`closeFailed, vol`openResult, vol`faults
      ensures vol.faults >= old(vol.faults)
      ensures Ready() && OnlyChanged(Descriptor(lun))
      ensures NoFault() && lunDirectory in vol.dirs ==> DescriptorSeenTo(lun)
      ensures NoFault() && Descriptor(lun) in old(vol.files) ==> vol.files == old(vol.files)
    {
      fsResult := vol.OpenFile(Descriptor(lun), Read);
      var present := fsResult.FR_OK?;
      vol.Close();
      if !present {
        var created, written := CreateDscFromLunImage(lunDirectory, lun, lunFileSize);
      } else {
        var lunDscSize, read := GetLunSizeFromDsc(lunDirectory, lun);
      }
    }

    /** Looks for the user code of an image. */
    method CheckUserCode(lun: nat)
      requires Ready() && lun < LUNS
      modifies this`fsResult, vol`files, vol`handle, vol`room, vol`closeFailed, vol`openResult, vol`faults
      ensures vol.faults >= old(vol.faults)
      ensures Ready() && vol.files == old(vol.files)
    {
      fsResult := vol.OpenFile(FileName(lunDirectory, lun, Ucd), Read);
      var present := fsResult.FR_OK?;
      vol.Close();
      if present {
        var userCode := new byte[5];
        GetUserCodeFromUcd(lunDirectory, lun, userCode);
      }
    }

    /** Whether the image is there. Its descriptor is looked for, and may be made. */
    method CheckLunImage(lun: nat) returns (ok: bool)
      requires Ready() && lun < LUNS
      modifies this`fsResult, this`growth, sectorBuffer
      modifies vol`files, vol`handle, vol`room, vol`closeFailed, vol`openResult, vol`faults
      ensures vol.faults >= old(vol.faults)
      ensures Ready() && OnlyChanged(Descriptor(lun))
      ensures ok ==> Image(lun) in vol.files
      ensures NoFault() ==> (ok <==> Image(lun) in old(vol.files))
      ensures NoFault() && ok && lunDirectory in vol.dirs ==> DescriptorSeenTo(lun)
      ensures NoFault() && Descriptor(lun) in old(vol.files) ==> vol.files == old(vol.files)
    {
      fsResult := vol.OpenFile(Image(lun), Read);
      if !fsResult.FR_OK? {
        vol.Close();
        return false;
      }
      var lunFileSize := ToU32(vol.Size());
      vol.Close();
      CheckDescriptor(lun, lunFileSize);
      CheckUserCode(lun);
      return true;
    }

    /** Stopping needs no image to be there. */
    method SetLunStatus(lun: nat, lunStatus: bool) returns (ok: bool)
      requires Valid() && Idle() && lun < LUNS
      requires lunStatus ==> Usable()
      modifies this`fsResult, this`started, this`growth, vol, sectorBuffer
      ensures vol.faults >= old(vol.faults)
      ensures Valid() && Idle() && OnlyChanged(Descriptor(lun))
      ensures old(Usable()) ==> Usable()
      ensures started == if ok then old(started)[lun := lunStatus] else old(started)
      ensures !lunStatus || old(started)[lun] ==>
                ok && vol.files == old(vol.files) && NoFault() && growth == old(growth)
      ensures NoFault() && lunStatus && !old(started)[lun] ==> (ok <==> mounted && Image(lun) in old(vol.files))
      ensures NoFault() && lunStatus && !old(started)[lun] && ok ==> DescriptorSeenTo(lun)
      ensures NoFault() && Descriptor(lun) in old(vol.files) ==> vol.files == old(vol.files)
      ensures NoFault() ==> DescriptorsKept()
    {
      if started[lun] == lunStatus {
        return true;
      }
      if !started[lun] && lunStatus {
        if !mounted {
          return false;
        }
        var there := CheckLunDirectory(lunDirectory);
        if !there {
          return false;
        }
        there := CheckLunImage(lun);
        if !there {
          return false;
        }
        started := started[lun := true];
        return true;
      }
      started := started[lun := false];
      return true;
    }

    /** Stops all eight, one after the other. */
    method StopAll()
      requires Valid() && Idle()
      modifies this`fsResult, this`started, this`growth, vol, sectorBuffer
      ensures Ready() && vol.files == old(vol.files) && NoFault()
      ensures forall lun :: 0 <= lun < LUNS ==> !started[lun]
    {
      var lun := 0;
      while lun < LUNS
        invariant 0 <= lun <= LUNS
        invariant Valid() && Idle() && vol.files == old(vol.files) && NoFault()
        invariant forall l :: 0 <= l < lun ==> !started[l]
      {
        var stopped := SetLunStatus(lun, false);
        lun := lun + 1;
      }
    }

    function ReadLunStatus(lun: nat): (status: bool)
      requires Valid() && lun < LUNS
      reads this, vol
    {
      started[lun]
    }

    method TestLunStatus(lun: nat) returns (ok: bool)
      requires Ready() && lun < LUNS
      modifies this`fsResult, this`growth, sectorBuffer
      modifies vol`files, vol`handle, vol`room, vol`closeFailed, vol`openResult, vol`faults
      ensures vol.faults >= old(vol.faults)
      ensures Ready() && OnlyChanged(Descriptor(lun))
      ensures ok ==> started[lun] && Image(lun) in vol.files
      ensures NoFault() ==> (ok <==> started[lun])
      ensures NoFault() ==> DescriptorsKept()
    {
      if started[lun] {
        ok := CheckLunImage(lun);
      } else {
        ok := false;
      }
    }

    /** No image has changed or been made, and no file has gone. */
    twostate predicate ImagesKept()
      reads vol`files
    {
      && (forall n :: n in old(vol.files) ==> n in vol.files)
      && (forall n :: n in vol.files && n.kind.Dat? ==> n in old(vol.files))
      && (forall n :: n in old(vol.files) && n.kind.Dat? ==> vol.files[n] == old(vol.files)[n])
    }

    /** No descriptor has changed, and none has gone. */
    twostate predicate DescriptorsKept()
      reads vol`files
    {
      forall n :: n in old(vol.files) && n.kind.Dsc? ==> n in vol.files && vol.files[n] == old(vol.files)[n]
    }

    /** Mounts the card and starts LUN 0, which the host takes for started. */
    method Mount() returns (ok: bool)
      requires Ready()
      modifies this`fsResult, this`started, this`mounted, this`growth, vol, sectorBuffer
      ensures vol.faults >= old(vol.faults)
      ensures Ready() && ImagesKept()
      ensures ok <==> !old(mounted) && mounted
      ensures old(mounted) ==> mounted && started == old(started)
      ensures !old(mounted) ==> forall lun :: 1 <= lun < LUNS ==> !started[lun]
      ensures NoFault() ==> mounted && DescriptorsKept()
      ensures NoFault() && !old(mounted) ==> (started[0] <==> Image(0) in vol.files)
    {
      if mounted {
        return false;
      }
      StopAll();
      fsResult := vol.Mount();
      if !fsResult.FR_OK? {
        mounted := false;
        return false;
      }
      mounted := true;
      label stopped:
      var lun0 := SetLunStatus(0, true);
      assert OnlyChanged@stopped(Descriptor(0));
      return true;
    }

    method Dismount() returns (ok: bool)
      requires Ready()
      modifies this`fsResult, this`started, this`mounted, this`growth, vol, sectorBuffer
      ensures vol.faults >= old(vol.faults)
      ensures Ready() && vol.files == old(vol.files) && !mounted
      ensures forall lun :: 0 <= lun < LUNS ==> !started[lun]
      ensures ok ==> old(mounted)
      ensures NoFault() ==> ok == old(mounted)
    {
      if !mounted {
        return false;
      }
      StopAll();
      fsResult := vol.Mount();
      mounted := false;
      return fsResult.FR_OK?;
    }

    /** Called when the host has signalled reset: looks for the images of all started LUNs,
        and mounts the card afresh if one is `missing`. */
    method Reset() returns (ghost missing: bool)
      requires Ready()
      modifies this`fsResult, this`started, this`mounted, this`growth, vol, sectorBuffer
      ensures vol.faults >= old(vol.faults)
      ensures Ready() && ImagesKept()
      ensures missing ==> old(mounted)
      ensures old(mounted) && !missing ==> mounted && started == old(started)
      ensures missing || !old(mounted) ==> forall lun :: 1 <= lun < LUNS ==> !started[lun]
      ensures NoFault() ==> mounted && !missing && DescriptorsKept()
      ensures NoFault() && !old(mounted) ==> (started[0] <==> Image(0) in vol.files)
    {
      var remounted: bool;
      missing := false;
      if mounted {
        var errorFlag := false;
        var lun := 0;
        while lun < LUNS
          invariant 0 <= lun <= LUNS
          invariant Ready() && ImagesKept()
          invariant mounted && started == old(started) && missing == errorFlag
          invariant vol.faults >= old(vol.faults)
          invariant NoFault() ==> !errorFlag && DescriptorsKept()
        {
          if ReadLunStatus(lun) {
            var ok := TestLunStatus(lun);
            if !ok {
              errorFlag, missing := true, true;
            }
          }
          lun := lun + 1;
        }
        if errorFlag {
          remounted := Dismount();
          remounted := Mount();
        }
      } else {
        remounted := Mount();
      }
    }

    method SetLunDirectory(dir: byte)
      requires Ready()
      modifies this`fsResult, this`started, this`lunDirectory, this`growth, vol, sectorBuffer
      ensures vol.faults >= old(vol.faults)
      ensures Ready() && vol.files == old(vol.files) && lunDirectory == dir
      ensures forall lun :: 0 <= lun < LUNS ==> !started[lun]
    {
      lunDirectory := dir;
      StopAll();
    }

    // ---- Reading and writing images ---------------------------------------------------

    /** What is still in the sector buffer is what the image holds from the next sector to be
        handed out on. Where the image has ended, the buffer may hold anything. */
    ghost predicate Buffered(image: seq<byte>)
      requires currentBufferSector <= sectorsInBuffer && sectorsInBuffer * SECTOR_SIZE <= sectorBuffer.Length
      reads this`currentBufferSector, this`sectorsInBuffer, this`first, this`delivered, sectorBuffer
    {
      forall i :: currentBufferSector * SECTOR_SIZE <= i < sectorsInBuffer * SECTOR_SIZE ==>
        var offset := i + (first + delivered - currentBufferSector) * SECTOR_SIZE;
        0 <= offset < |image| ==> sectorBuffer[i] == image[offset]
    }

    /** Everything asked for has been handed out, is in the buffer or remains; the file has
        been read as far as the buffer goes, and no further. */
    ghost predicate InStep()
      reads this`started, this`currentBufferSector, this`sectorsInBuffer, this`sectorsRemaining,
            this`first, this`total, this`delivered, vol, sectorBuffer
    {
      && Valid() && vol.handle.Open? && !vol.closeFailed
      && currentBufferSector <= sectorsInBuffer <= bufferLength
      && delivered + (sectorsInBuffer - currentBufferSector) + sectorsRemaining == total
      && (var image := vol.files[vol.handle.name];
          && vol.handle.pos == Min((first + total - sectorsRemaining) * SECTOR_SIZE, |image|)
          && Buffered(image))
    }

    /** A read is in progress, and the buffer is empty only at its end. */
    ghost predicate Reading()
      reads this, vol, sectorBuffer
      ensures Reading() ==> Valid() && lunOpenFlag && vol.handle.Open?
    {
      lunOpenFlag && InStep() && (currentBufferSector == sectorsInBuffer ==> sectorsRemaining == 0)
    }

    /** A LUN image is flagged as open, with the file object in whatever state. */
    ghost predicate LunOpen()
      reads this, vol
      ensures LunOpen() ==> Valid()
    {
      Valid() && Usable() && lunOpenFlag && !rejected
    }

    method OpenLunForRead(lun: nat, startSector: uint32, requiredNumberOfSectors: uint32) returns (ok: bool)
      requires Valid() && (lunOpenFlag || vol.Released())
      modifies this`fsResult, this`lunOpenFlag, this`sectorsInBuffer, this`currentBufferSector,
               this`sectorsRemaining, this`first, this`total, this`delivered, this`rejected
      modifies vol`files, vol`handle, vol`room, vol`closeFailed, vol`openResult, vol`faults, sectorBuffer
      ensures vol.faults >= old(vol.faults)
      ensures Valid() && vol.files == old(vol.files)
      ensures old(lunOpenFlag) ==> !ok && lunOpenFlag && rejected
      ensures !old(lunOpenFlag) ==> rejected == old(rejected)
      ensures ok ==>
                && Reading() && vol.handle.name == Image(lun)
                && first == startSector % 0x80_0000 && total == requiredNumberOfSectors && delivered == 0
      ensures !ok && !old(lunOpenFlag) ==> !lunOpenFlag && vol.Released()
      ensures NoFault() && old(Ready()) ==> (ok <==> Image(lun) in vol.files)
      ensures old(Ready()) && ok ==> LunOpen()
      ensures old(Ready()) && !ok ==> Ready()
    {
      hide Usable, InStep;
      if lunOpenFlag {
        rejected := true;
        return false;
      }
      ok := StartRead(lun, startSector, requiredNumberOfSectors);
      if ok {
        lunOpenFlag := true;
      }
    }

    /** Opens the image, seeks and reads the first sectors. */
    method StartRead(lun: nat, startSector: uint32, requiredNumberOfSectors: uint32) returns (ok: bool)
      requires Valid()
      modifies this`fsResult, this`sectorsInBuffer, this`currentBufferSector,
               this`sectorsRemaining, this`first, this`total, this`delivered
      modifies vol`files, vol`handle, vol`room, vol`closeFailed, vol`openResult, vol`faults, sectorBuffer
      ensures vol.faults >= old(vol.faults)
      ensures Valid() && vol.files == old(vol.files)
      ensures ok ==>
                && InStep() && vol.handle.name == Image(lun)
                && first == startSector % 0x80_0000 && total == requiredNumberOfSectors && delivered == 0
                && (currentBufferSector == sectorsInBuffer ==> sectorsRemaining == 0)
      ensures !ok ==> vol.Released()
      ensures NoFault() ==> (ok <==> Image(lun) in vol.files)
    {
      hide ToU32;
      SectorOffset(startSector);
      var sought := OpenForReadAt(lun, ToU32(startSector * SECTOR_SIZE));
      if !sought {
        return false;
      }
      first, total, delivered := startSector % 0x80_0000, requiredNumberOfSectors, 0;
      sectorsRemaining := requiredNumberOfSectors;
      hide InStep;
      ok := ReadAhead();
      if !ok {
        vol.Close();
      }
    }

    /** Opens an image and seeks. Only a failing seek is an error here. */
    method OpenForReadAt(lun: nat, offset: uint32) returns (ok: bool)
      requires Valid()
      modifies this`fsResult, vol`files, vol`handle, vol`room, vol`closeFailed, vol`openResult, vol`faults
      ensures vol.faults >= old(vol.faults)
      ensures Valid() && vol.files == old(vol.files)
      ensures !ok ==> vol.Released()
      ensures ok ==> !vol.closeFailed
      ensures NoFault() ==> ok && (vol.handle.Open? <==> Image(lun) in vol.files)
      ensures ok && vol.handle.Open? ==>
                vol.handle.name == Image(lun) && vol.handle.pos == Min(offset, |vol.files[Image(lun)]|)
    {
      fsResult := vol.OpenFile(Image(lun), Read);
      if fsResult.FR_OK? {
        fsResult := vol.Seek(offset);
        if !fsResult.FR_OK? {
          vol.Close();
          return false;
        }
      }
      return true;
    }

    /** Fills the sector buffer with the next sectors of those that remain. */
    method ReadAhead() returns (ok: bool)
      requires Valid() && !vol.closeFailed && delivered + sectorsRemaining == total
      requires vol.handle.Open? ==>
                 vol.handle.pos == Min((first + delivered) * SECTOR_SIZE, |vol.files[vol.handle.name]|)
      modifies this`fsResult, this`sectorsInBuffer, this`currentBufferSector, this`sectorsRemaining
      modifies vol`handle, vol`faults, sectorBuffer
      ensures vol.faults >= old(vol.faults)
      ensures Valid()
      ensures ok ==> old(vol.handle).Open? && InStep() && vol.handle.name == old(vol.handle).name
      ensures ok && currentBufferSector == sectorsInBuffer ==> sectorsRemaining == 0
      ensures !ok ==> vol.handle == old(vol.handle)
      ensures NoFault() && old(vol.handle).Open? ==> ok
    {
      var sectorsToRead := sectorsRemaining;
      if sectorsRemaining > bufferLength {
        sectorsToRead := bufferLength;
      }
      sectorsInBuffer := sectorsToRead;
      currentBufferSector := 0;
      sectorsRemaining := sectorsRemaining - sectorsInBuffer;
      fsResult := FillBuffer(sectorsToRead);
      ok := fsResult.FR_OK?;
    }

    /** f_read of whole sectors into the sector buffer. */
    method FillBuffer(sectorsToRead: nat) returns (r: FResult)
      requires Valid() && sectorsToRead <= bufferLength
      modifies vol`handle, vol`faults, sectorBuffer
      ensures vol.faults >= old(vol.faults)
      ensures Valid() && (old(vol.handle).Closed? ==> !r.FR_OK?)
      ensures NoFault() && old(vol.handle).Open? ==> r.FR_OK?
      ensures r.FR_OK? ==>
                var image, pos := vol.files[old(vol.handle).name], old(vol.handle).pos;
                && vol.handle == old(vol.handle).(pos := Min(pos + sectorsToRead * SECTOR_SIZE, |image|))
                && forall i :: 0 <= i < sectorsToRead * SECTOR_SIZE && pos + i < |image| ==>
                     sectorBuffer[i] == image[pos + i]
      ensures !r.FR_OK? ==> vol.handle == old(vol.handle)
    {
      var fsCounter;
      r, fsCounter := vol.ReadBytes(sectorBuffer, sectorsToRead * SECTOR_SIZE);
      if r.FR_OK? {
        ghost var image, pos := vol.files[old(vol.handle).name], old(vol.handle).pos;
        FrontHolds(sectorBuffer[..], fsCounter, image, pos);
      }
    }

    /** Hands out the next sector, and reads ahead when that was the last in the buffer. If
        reading ahead fails, the sector has still been handed out. */
    method ReadNextSector(buffer: array<byte>) returns (ok: bool)
      requires Valid() && buffer != sectorBuffer && buffer.Length == SECTOR_SIZE
      requires lunOpenFlag ==> Reading()
      modifies this`fsResult, this`sectorsInBuffer, this`currentBufferSector, this`sectorsRemaining, this`delivered
      modifies vol`handle, vol`closeFailed, vol`faults, sectorBuffer, buffer
      ensures vol.faults >= old(vol.faults)
      ensures Valid()
      ensures !lunOpenFlag ==> !ok && vol.handle == old(vol.handle) && vol.closeFailed == old(vol.closeFailed)
      ensures lunOpenFlag && old(delivered) < total ==>
                && delivered == old(delivered) + 1
                && forall b :: 0 <= b < SECTOR_SIZE ==>
                     var image := vol.files[old(vol.handle).name];
                     (first + old(delivered)) * SECTOR_SIZE + b < |image| ==>
                       buffer[b] == image[(first + old(delivered)) * SECTOR_SIZE + b]
      ensures lunOpenFlag && old(delivered) == total ==>
                ok && delivered == total && buffer[..] == old(buffer[..])
      ensures lunOpenFlag && ok ==> Reading() && vol.handle.name == old(vol.handle).name
      ensures lunOpenFlag && !ok ==> vol.Released()
      ensures NoFault() && lunOpenFlag ==> ok
      ensures old(LunOpen()) ==> LunOpen()
    {
      if !lunOpenFlag {
        return false;
      }
      if currentBufferSector < sectorsInBuffer {
        HandOut(buffer);
      }
      if currentBufferSector == sectorsInBuffer {
        if sectorsRemaining != 0 {
          ok := ReadAhead();
          if !ok {
            vol.Close();
            return false;
          }
        }
      }
      return true;
    }

    /** The copy out of the sector buffer. */
    method HandOut(buffer: array<byte>)
      requires InStep() && currentBufferSector < sectorsInBuffer
      requires buffer != sectorBuffer && buffer.Length == SECTOR_SIZE
      modifies this`currentBufferSector, this`delivered, buffer
      ensures InStep() && currentBufferSector == old(currentBufferSector) + 1 && delivered == old(delivered) + 1
      ensures forall b :: 0 <= b < SECTOR_SIZE ==>
                var image, offset := vol.files[vol.handle.name], (first + old(delivered)) * SECTOR_SIZE + b;
                offset < |image| ==> buffer[b] == image[offset]
    {
      forall b | 0 <= b < SECTOR_SIZE {
        buffer[b] := sectorBuffer[currentBufferSector * SECTOR_SIZE + b];
      }
      currentBufferSector := currentBufferSector + 1;
      delivered := delivered + 1;
    }

    /** filesystemCloseLunForRead and filesystemCloseLunForWrite, which are alike. */
    method CloseLun()
      requires Valid()
      modifies this`lunOpenFlag, vol`handle, vol`closeFailed, vol`faults
      ensures vol.faults >= old(vol.faults)
      ensures Valid() && !lunOpenFlag
      ensures old(lunOpenFlag) ==> vol.Released()
      ensures !old(lunOpenFlag) ==> vol.handle == old(vol.handle) && vol.closeFailed == old(vol.closeFailed)
      ensures old(LunOpen()) || old(Ready()) ==> Ready()
    {
      if !lunOpenFlag {
        return;
      }
      vol.Close();
      lunOpenFlag := false;
    }

    /** Opens an image for writing. If f_open fails this still succeeds, with no file open.
        On a full volume the position may fall short. */
    method OpenLunForWrite(lun: nat, startSector: uint32, requiredNumberOfSectors: uint32) returns (ok: bool)
      requires Valid() && (lunOpenFlag || vol.Released())
      modifies this`fsResult, this`lunOpenFlag, this`rejected, this`growth
      modifies vol`files, vol`handle, vol`room, vol`closeFailed, vol`openResult, vol`faults
      ensures vol.faults >= old(vol.faults)
      ensures Valid() && OnlyChanged(Image(lun))
      ensures ok <==> lunOpenFlag && !old(lunOpenFlag)
      ensures old(lunOpenFlag) ==> rejected && lunOpenFlag
      ensures !old(lunOpenFlag) ==> rejected == old(rejected)
      ensures !ok || vol.handle.Closed? ==> vol.files == old(vol.files)
      ensures !old(lunOpenFlag) && !vol.openResult.FR_OK? ==> ok && vol.handle.Closed?
      ensures ok && vol.openResult.FR_OK? ==> vol.handle.Open?
      ensures !ok && !old(lunOpenFlag) ==> vol.Released()
      ensures NoFault() && old(Ready()) ==> ok && (vol.handle.Open? <==> Image(lun) in old(vol.files))
      ensures ok && vol.handle.Open? ==>
                && Image(lun) in old(vol.files) && Image(lun) in vol.files
                && vol.handle == Open(Image(lun), vol.handle.pos, true)
                && Landing(old(vol.files)[Image(lun)], vol.files[Image(lun)], vol.handle.pos,
                           (startSector % 0x80_0000) * SECTOR_SIZE, [], growth, vol.room)
      ensures old(Ready()) ==> if ok then LunOpen() else Ready()
    {
      if lunOpenFlag {
        rejected := true;
        return false;
      }
      SectorOffset(startSector);
      var sought := OpenForWriteAt(lun, ToU32(startSector * SECTOR_SIZE));
      if !sought {
        return false;
      }
      lunOpenFlag := true;
      return true;
    }

    /** Opens an image and seeks. Only a failing seek is an error here. */
    method OpenForWriteAt(lun: nat, offset: uint32) returns (ok: bool)
      requires Valid()
      modifies this`fsResult, this`growth, vol`files, vol`handle, vol`room, vol`closeFailed, vol`openResult, vol`faults
      ensures vol.faults >= old(vol.faults)
      ensures Valid() && OnlyChanged(Image(lun))
      ensures !ok || vol.handle.Closed? ==> vol.files == old(vol.files)
      ensures !vol.openResult.FR_OK? ==> ok && vol.handle.Closed?
      ensures ok && vol.openResult.FR_OK? ==> vol.handle.Open?
      ensures !ok ==> vol.Released()
      ensures NoFault() ==> ok && (vol.handle.Open? <==> Image(lun) in old(vol.files))
      ensures ok && vol.handle.Open? ==>
                && Image(lun) in old(vol.files) && Image(lun) in vol.files
                && vol.handle == Open(Image(lun), vol.handle.pos, true)
                && Landing(old(vol.files)[Image(lun)], vol.files[Image(lun)], vol.handle.pos, offset, [],
                           growth, vol.room)
    {
      hide Landing;
      fsResult := vol.OpenFile(Image(lun), ReadWrite);
      growth := vol.room;
      if fsResult.FR_OK? {
        ghost var before := vol.files[Image(lun)];
        fsResult := vol.Seek(offset);
        if !fsResult.FR_OK? {
          vol.Close();
          return false;
        }
        LandingStart(before, vol.files[Image(lun)], vol.handle.pos, offset, growth, vol.room);
      }
      return true;
    }

    /** `n` bytes have been written, SECTOR_SIZE unless the volume is full. */
    method WriteNextSector(buffer: array<byte>) returns (ok: bool, ghost n: nat)
      requires Valid() && buffer.Length == SECTOR_SIZE
      modifies this`fsResult, vol`files, vol`handle, vol`room, vol`closeFailed, vol`faults
      ensures vol.faults >= old(vol.faults)
      ensures Valid()
      ensures !lunOpenFlag ==>
                && !ok && vol.files == old(vol.files)
                && vol.handle == old(vol.handle) && vol.closeFailed == old(vol.closeFailed)
      ensures !ok ==> vol.files == old(vol.files)
      ensures lunOpenFlag && !ok ==> vol.Released()
      ensures old(LunOpen()) ==> LunOpen()
      ensures ok ==> lunOpenFlag && old(vol.handle).Open? && n <= SECTOR_SIZE
      ensures NoFault() && lunOpenFlag && old(vol.handle).Open? && old(vol.handle).writable ==> ok
      ensures ok ==>
                var name, pos := old(vol.handle).name, old(vol.handle).pos;
                var before, after := old(vol.files)[name], Overwrite(old(vol.files)[name], pos, buffer[..n]);
                && n == Min(SECTOR_SIZE, |before| + old(vol.room) - pos)
                && vol.files == old(vol.files)[name := after]
                && vol.room == |before| + old(vol.room) - |after|
                && vol.handle == old(vol.handle).(pos := pos + n)
    {
      n := 0;
      if !lunOpenFlag {
        return false, n;
      }
      var fsCounter;
      fsResult, fsCounter := vol.WriteBytes(buffer[..]);
      if !fsResult.FR_OK? {
        vol.Close();
        return false, n;
      }
      assert buffer[..][..fsCounter] == buffer[..fsCounter];
      return true, fsCounter;
    }
  }

  /** `after` is `before` with `d` written over its front, as far as it could grow. */
  ghost predicate Rewritten(before: seq<byte>, after: seq<byte>, d: seq<byte>, growth: nat, room: nat)
  {
    && |after| + room == |before| + growth
    && after == Overwrite(before, 0, d[..Min(|d|, |before| + growth)])
  }

  lemma FrontHolds(buf: seq<byte>, n: nat, image: seq<byte>, pos: nat)
    requires n <= |buf| && pos + n <= |image| && buf[..n] == image[pos..pos + n]
    ensures forall i :: 0 <= i < n ==> buf[i] == image[pos + i]
  {
    forall i | 0 <= i < n
      ensures buf[i] == image[pos + i]
    {
      assert buf[..n][i] == image[pos..pos + n][i];
    }
  }

  lemma OverwriteNothing(d: seq<byte>, n: nat)
    ensures Overwrite([], 0, d) == d && Overwrite([], 0, d[..Min(|d|, n)]) == d[..Min(|d|, n)]
  {
  }

  // ---- What a write leaves behind -----------------------------------------------------

  /** `after` is `before` with `d` at `offset`, as far as a file of at most `limit` bytes can
      hold it: grown as far as that needs, and every other byte of `before` unchanged. */
  ghost predicate Patched(before: seq<byte>, after: seq<byte>, offset: nat, d: seq<byte>, limit: nat)
  {
    && |after| == Max(|before|, Min(offset + |d|, limit))
    && (forall i :: offset <= i < Min(offset + |d|, |after|) ==> after[i] == d[i - offset])
    && (forall i :: 0 <= i < |before| && !(offset <= i < offset + |d|) ==> after[i] == before[i])
  }

  /** A write in progress: `d` has been sent so far, to go to `offset`; the file position is
      `pos`, the file can still grow by `room` bytes and could grow by `growth` when it was
      opened. */
  ghost predicate Landing(before: seq<byte>, after: seq<byte>, pos: nat, offset: nat, d: seq<byte>,
                          growth: nat, room: nat)
  {
    && pos == Min(offset + |d|, |before| + growth)
    && |after| + room == |before| + growth
    && Patched(before, after, offset, d, |before| + growth)
  }

  lemma LandingStart(before: seq<byte>, after: seq<byte>, pos: nat, offset: nat, growth: nat, room: nat)
    requires pos == Min(offset, |before| + growth) && |after| + room == |before| + growth
    requires if offset <= |before| then after == before else before <= after && |after| == pos
    ensures Landing(before, after, pos, offset, [], growth, room)
  {
  }

  lemma LandingStep(before: seq<byte>, after: seq<byte>, pos: nat, offset: nat, d: seq<byte>, growth: nat, room: nat,
                    block: seq<byte>, n: nat)
    requires Landing(before, after, pos, offset, d, growth, room)
    requires n == Min(|block|, |after| + room - pos)
    ensures var grown := Overwrite(after, pos, block[..n]);
            |grown| <= |after| + room
            && Landing(before, grown, pos + n, offset, d + block, growth, |after| + room - |grown|)
  {
    var grown := Overwrite(after, pos, block[..n]);
    forall i | offset <= i < Min(offset + |d + block|, |grown|)
      ensures grown[i] == (d + block)[i - offset]
    {
      if i < pos {
        assert grown[i] == after[i];
      } else {
        assert grown[i] == block[..n][i - pos];
      }
    }
  }

  lemma SectorOffset(s: uint32)
    ensures ToU32(s * SECTOR_SIZE) == (s % 0x80_0000) * SECTOR_SIZE
  {
  }
}