/** FRESULT, as far as the firmware tells its values apart. */
module FatResults {
  datatype FResult =
    | FR_OK | FR_NO_PATH | FR_NO_FILE | FR_EXIST | FR_DENIED | FR_INVALID_OBJECT | FR_NOT_ENOUGH_CORE | FR_DISK_ERR
}

/** What the firmware relies on in FatFs, for one volume and the one file object
    (`fileObject`) all of filesystem.c shares. Every call may fail for reasons of its own. */
module Fat {
  import opened Bytes
  import opened FatResults

  datatype Kind = Dat | Dsc | Ucd

  /** /BeebSCSI<dir>/scsi<lun>.<kind> */
  datatype FileName = FileName(dir: byte, lun: nat, kind: Kind)

  datatype Handle = Closed | Open(name: FileName, pos: nat, writable: bool)

  datatype Mode = Read | ReadWrite | CreateNew | CreateAlways

  /** `d` written over `s` from `pos` on. */
  function Overwrite(s: seq<byte>, pos: nat, d: seq<byte>): (r: seq<byte>)
    requires pos <= |s|
    ensures |r| == Max(|s|, pos + |d|)
  {
    if pos + |d| <= |s| then s[..pos] + d + s[pos + |d|..] else s[..pos] + d
  }

  class Volume {
    var files: map<FileName, seq<byte>>
    var dirs: set<byte>
    var handle: Handle
    /** How many bytes the open file can still grow by. */
    var room: nat
    /** What the last f_open has reported. */
    ghost var openResult: FResult
    /** The last f_close of the open file object reported an error, and left it open. */
    ghost var closeFailed: bool
    /** How many calls have failed for reasons of their own: a bad card, or no space for a new
        directory entry or for f_expand. A file that is not there is no such reason. */
    ghost var faults: nat

    ghost predicate Valid()
      reads this
    {
      && (handle.Open? ==> handle.name in files && handle.pos <= |files[handle.name]|)
      && (closeFailed ==> handle.Open?)
    }

    /** No file object is open, other than one that f_close could not close. */
    ghost predicate Released()
      reads this
    {
      handle.Open? <==> closeFailed
    }

    constructor (contents: map<FileName, seq<byte>>, folders: set<byte>)
      ensures Valid() && Released() && files == contents && dirs == folders
    {
      files, dirs, handle, room, closeFailed, openResult, faults := contents, folders, Closed, 0, false, FR_OK, 0;
    }

    /** Another failure of this kind. */
    ghost method Fault()
      modifies this`faults
      ensures faults == old(faults) + 1
    {
      faults := faults + 1;
    }

    method Mount() returns (r: FResult)
      modifies this`faults
      ensures faults == old(faults) + if r.FR_OK? then 0 else 1
    {
      r := *;
      if !r.FR_OK? {
        Fault();
      }
    }

    method OpenDir(dir: byte) returns (r: FResult)
      modifies this`faults
      ensures r.FR_OK? ==> dir in dirs
      ensures faults >= old(faults)
      ensures faults == old(faults) ==> r == if dir in dirs then FR_OK else FR_NO_PATH
    {
      r := *;
      if !r.FR_OK? {
        Fault();
      } else if dir !in dirs {
        r := FR_NO_PATH;
      }
    }

    method MkDir(dir: byte) returns (r: FResult)
      modifies this`dirs, this`faults
      ensures dirs == if r.FR_OK? then old(dirs) + {dir} else old(dirs)
      ensures faults >= old(faults)
      ensures faults == old(faults) ==> r == if dir in old(dirs) then FR_EXIST else FR_OK
    {
      r := *;
      if !r.FR_OK? {
        Fault();
      } else if dir in dirs {
        r := FR_EXIST;
      } else {
        dirs := dirs + {dir};
      }
    }

    /** f_open. A create that fails may or may not have left an empty file behind. */
    method OpenFile(name: FileName, mode: Mode) returns (r: FResult)
      requires Valid()
      modifies this`files, this`handle, this`room, this`closeFailed, this`openResult, this`faults
      ensures Valid() && !closeFailed && openResult == r
      ensures handle == if r.FR_OK? then Open(name, 0, mode.ReadWrite? || mode.CreateAlways?) else Closed
      ensures mode.Read? || mode.ReadWrite? ==> files == old(files)
      ensures mode.CreateNew? && r.FR_OK? ==> name !in old(files)
      ensures mode.CreateNew? && name in old(files) ==> files == old(files)
      ensures mode.CreateNew? || mode.CreateAlways? ==>
                files == old(files)[name := []] || (!r.FR_OK? && files == old(files))
      ensures r.FR_OK? ==> name in files
      ensures faults >= old(faults)
      ensures faults == old(faults) && (mode.Read? || mode.ReadWrite?) ==> (r.FR_OK? <==> name in old(files))
      ensures faults == old(faults) && mode.CreateNew? && name.dir in dirs ==> (r.FR_OK? <==> name !in old(files))
      ensures faults == old(faults) && mode.CreateAlways? && (name in old(files) || name.dir in dirs) ==> r.FR_OK?
    {
      r := *;
      var free: int := *;
      handle, room, closeFailed := Closed, Max(0, free), false;
      if mode.CreateNew? && name in files {
        r := FR_EXIST;
      } else if !r.FR_OK? {
        Fault();
        var registered: bool := *;
        if registered && (mode.CreateNew? || mode.CreateAlways?) {
          files := files[name := []];
        }
      } else {
        match mode {
          case Read | ReadWrite =>
            if name !in files {
              r := FR_NO_FILE;
            }
          case CreateNew | CreateAlways =>
            if name in files || name.dir in dirs {
              files := files[name := []];
            } else {
              r := FR_NO_PATH;
            }
        }
      }
      if r.FR_OK? {
        handle := Open(name, 0, mode.ReadWrite? || mode.CreateAlways?);
      }
      openResult := r;
    }

    /** f_close: an error of its f_sync leaves the file object as it is. */
    method Close()
      requires Valid()
      modifies this`handle, this`closeFailed, this`faults
      ensures Valid() && Released()
      ensures handle.Closed? || handle == old(handle)
      ensures faults >= old(faults)
      ensures faults == old(faults) ==> handle.Closed?
    {
      if handle.Open? {
        var failed: bool := *;
        if failed {
          Fault();
          closeFailed := true;
        } else {
          handle, closeFailed := Closed, false;
        }
      }
    }

    function Size(): nat
      requires Valid() && handle.Open?
      reads this
    {
      |files[handle.name]|
    }

    /** f_lseek: past the end it stops at the end of a file opened for reading, and extends a
        file opened for writing with bytes nobody has written, as far as there is room. */
    method Seek(offset: nat) returns (r: FResult)
      requires Valid()
      modifies this`files, this`handle, this`room, this`faults
      ensures Valid()
      ensures old(handle).Closed? ==> !r.FR_OK?
      ensures faults >= old(faults)
      ensures faults == old(faults) && old(handle).Open? ==> r.FR_OK?
      ensures !r.FR_OK? ==> files == old(files) && handle == old(handle) && room == old(room)
      ensures r.FR_OK? && (offset <= |old(files)[old(handle).name]| || !old(handle).writable) ==>
                && files == old(files) && room == old(room)
                && handle == old(handle).(pos := Min(offset, |files[old(handle).name]|))
      ensures r.FR_OK? && offset > |old(files)[old(handle).name]| && old(handle).writable ==>
                var before := old(files)[old(handle).name];
                && handle.Open? && handle == old(handle).(pos := Min(offset, |before| + old(room)))
                && handle.name in files && |files[handle.name]| == handle.pos
                && room == |before| + old(room) - handle.pos
                && before <= files[handle.name]
                && files == old(files)[handle.name := files[handle.name]]
    {
      r := *;
      if handle.Closed? {
        return FR_INVALID_OBJECT;
      }
      if r.FR_OK? {
        var size := |files[handle.name]|;
        if offset <= size || !handle.writable {
          handle := handle.(pos := Min(offset, size));
        } else {
          var end := Min(offset, size + room);
          var filler: seq<byte> := *;
          if |filler| != end - size {
            filler := seq(end - size, _ => 0);
          }
          files := files[handle.name := files[handle.name] + filler];
          room := room - (end - size);
          handle := handle.(pos := end);
        }
      } else {
        Fault();
      }
    }

    /** f_read into the front of `buffer`: stops at the end of the file. After an error the
        bytes asked for may hold anything. */
    method ReadBytes(buffer: array<byte>, count: nat) returns (r: FResult, n: nat)
      requires Valid() && count <= buffer.Length
      modifies this`handle, this`faults, buffer
      ensures Valid()
      ensures old(handle).Closed? ==> !r.FR_OK?
      ensures faults >= old(faults)
      ensures faults == old(faults) && old(handle).Open? ==> r.FR_OK?
      ensures buffer[count..] == old(buffer[..])[count..]
      ensures r.FR_OK? ==>
                var file, pos := files[old(handle).name], old(handle).pos;
                && n == Min(count, |file| - pos)
                && buffer[..n] == file[pos..pos + n] && buffer[n..] == old(buffer[..])[n..]
                && handle == old(handle).(pos := pos + n)
      ensures !r.FR_OK? ==> handle == old(handle) && (n < count || n == 0)
    {
      r, n := *, 0;
      if handle.Closed? {
        return FR_INVALID_OBJECT, 0;
      }
      if r.FR_OK? {
        var file, pos := files[handle.name], handle.pos;
        n := Min(count, |file| - pos);
        forall k | 0 <= k < n {
          buffer[k] := file[pos + k];
        }
        assert buffer[..n] == file[pos..pos + n];
        handle := handle.(pos := pos + n);
      } else {
        Fault();
        var garbage: seq<byte> := *;
        if |garbage| == count {
          forall k | 0 <= k < count {
            buffer[k] := garbage[k];
          }
        }
        n := *;
        n := if n < count then n else 0;
      }
    }

    /** f_write. On a full volume it fills the space the file has, and still reports FR_OK. An
        error means nothing has been written. */
    method WriteBytes(d: seq<byte>) returns (r: FResult, n: nat)
      requires Valid()
      modifies this`files, this`handle, this`room, this`faults
      ensures Valid()
      ensures old(handle).Closed? ==> !r.FR_OK?
      ensures faults >= old(faults)
      ensures faults == old(faults) && old(handle).Open? && old(handle).writable ==> r.FR_OK?
      ensures r.FR_OK? ==> n == Min(|d|, |old(files)[old(handle).name]| + old(room) - old(handle).pos)
      ensures r.FR_OK? ==>
                var file, pos := old(files)[old(handle).name], old(handle).pos;
                var grown := Overwrite(file, pos, d[..n]);
                && files == old(files)[old(handle).name := grown]
                && room == |file| + old(room) - |grown|
                && handle == old(handle).(pos := pos + n)
      ensures !r.FR_OK? ==>
                files == old(files) && handle == old(handle) && room == old(room) && (n < |d| || n == 0)
    {
      r, n := *, 0;
      if handle.Closed? || !handle.writable {
        return FR_DENIED, 0;
      }
      if r.FR_OK? {
        var file := files[handle.name];
        n := Min(|d|, |file| + room - handle.pos);
        var grown := Overwrite(file, handle.pos, d[..n]);
        files := files[handle.name := grown];
        room := |file| + room - |grown|;
        handle := handle.(pos := handle.pos + n);
      } else {
        Fault();
      }
    }

    /** f_expand of an empty file. */
    method Expand(size: nat) returns (r: FResult)
      requires Valid()
      modifies this`files, this`faults
      ensures Valid()
      ensures old(handle).Closed? || size == 0 ==> !r.FR_OK?
      ensures faults >= old(faults)
      ensures faults == old(faults) && handle.Open? && handle.writable && old(files)[handle.name] == [] ==>
                (r.FR_OK? <==> size != 0)
      ensures !r.FR_OK? ==> files == old(files)
      ensures r.FR_OK? ==>
                && handle.name in files && |files[handle.name]| == size
                && files == old(files)[handle.name := files[handle.name]]
    {
      r := *;
      if handle.Closed? || !handle.writable || size == 0 || files[handle.name] != [] {
        return FR_DENIED;
      }
      if r.FR_OK? {
        files := files[handle.name := seq(size, _ => 0)];
      } else {
        Fault();
      }
    }
  }
}
