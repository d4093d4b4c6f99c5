/** Cutting the beginning off an open file by moving the rest forward, block by block,
    over itself: TM_FATFS_TruncateBeginning. */
module FileShift {
  import opened Bytes
  import opened FatResults

  /** An open FatFs file object. Every call may report an error; a call that does has
      changed neither the contents nor the position. */
  class File {
    var data: seq<byte>
    var pos: nat
    /** How many calls have reported an error. */
    ghost var faults: nat

    ghost predicate Valid()
      reads this
    {
      pos <= |data| < 0x1_0000_0000
    }

    constructor (contents: seq<byte>)
      requires |contents| < 0x1_0000_0000
      ensures Valid() && data == contents && pos == 0
    {
      data, pos, faults := contents, 0, 0;
    }

    /** f_lseek, within the file. */
    method Seek(offset: uint32) returns (fr: FResult)
      requires Valid() && offset <= |data|
      modifies this`pos, this`faults
      ensures Valid() && faults == old(faults) + if fr.FR_OK? then 0 else 1
      ensures pos == if fr.FR_OK? then offset else old(pos)
    {
      fr := *;
      if fr.FR_OK? {
        pos := offset;
      } else {
        faults := faults + 1;
      }
    }

    /** f_read: stops at the end of the file. */
    method Read(count: uint32) returns (fr: FResult, bytes: seq<byte>)
      requires Valid()
      modifies this`pos, this`faults
      ensures Valid() && faults == old(faults) + if fr.FR_OK? then 0 else 1
      ensures fr.FR_OK? ==> |bytes| == Min(count, |data| - old(pos))
      ensures fr.FR_OK? ==> pos == old(pos) + |bytes| && bytes == data[old(pos)..pos]
      ensures !fr.FR_OK? ==> pos == old(pos)
    {
      fr, bytes := *, [];
      if fr.FR_OK? {
        var n := Min(count, |data| - pos);
        bytes := data[pos..pos + n];
        pos := pos + n;
      } else {
        faults := faults + 1;
      }
    }

    /** f_write, within the file. */
    method Write(bytes: seq<byte>) returns (fr: FResult, written: uint32)
      requires Valid() && pos + |bytes| <= |data|
      modifies this
      ensures Valid() && faults == old(faults) + if fr.FR_OK? then 0 else 1
      ensures fr.FR_OK? ==> written == |bytes| && pos == old(pos) + |bytes|
      ensures fr.FR_OK? ==> data == old(data)[..old(pos)] + bytes + old(data)[old(pos) + |bytes|..]
      ensures !fr.FR_OK? ==> data == old(data) && pos == old(pos)
    {
      fr, written := *, 0;
      if fr.FR_OK? {
        data := data[..pos] + bytes + data[pos + |bytes|..];
        pos, written := pos + |bytes|, |bytes|;
      } else {
        faults := faults + 1;
      }
    }

    /** f_truncate: the file ends at the current position. */
    method Truncate() returns (fr: FResult)
      requires Valid()
      modifies this`data, this`faults
      ensures Valid() && faults == old(faults) + if fr.FR_OK? then 0 else 1
      ensures data == if fr.FR_OK? then old(data)[..pos] else old(data)
    {
      fr := *;
      if fr.FR_OK? {
        data := data[..pos];
      } else {
        faults := faults + 1;
      }
    }
  }

  /** `s` once `k` bytes from `index` on have been moved to the front. */
  function Shifted(s: seq<byte>, index: nat, k: nat): (r: seq<byte>)
    requires index + k <= |s|
    ensures |r| == |s|
  {
    s[index..index + k] + s[k..]
  }

  /** `s` with `b` bytes read at `from` and written at `to`. */
  function Copied(s: seq<byte>, from: nat, to: nat, b: nat): (r: seq<byte>)
    requires to <= from && from + b <= |s|
    ensures |r| == |s|
  {
    s[..to] + s[from..from + b] + s[to + b..]
  }

  lemma NothingMoved(s: seq<byte>, index: nat)
    requires index <= |s|
    ensures Shifted(s, index, 0) == s
  {
  }

  /** The read position runs ahead of the write position, so what is still to be read is
      still what it was. */
  lemma UnreadTail(s: seq<byte>, index: nat, k: nat, b: nat)
    requires index + k + b <= |s|
    ensures Shifted(s, index, k)[index + k..index + k + b] == s[index + k..index + k + b]
  {
  }

  /** One more block moved: read where the read position is, written at the write position. */
  lemma MoveBlock(s: seq<byte>, index: nat, k: nat, b: nat)
    requires index + k + b <= |s|
    ensures Copied(Shifted(s, index, k), index + k, k, b) == Shifted(s, index, k + b)
  {
    UnreadTail(s, index, k, b);
  }

  /** The file without its first `index` bytes; empty when there are no more. */
  function Suffix(s: seq<byte>, index: nat): seq<byte>
  {
    s[Min(index, |s|)..]
  }

  /** One round of the loop: a block is read at `from` and written at `to`. */
  method CopyBlock(fil: File, from: uint32, to: uint32, size: uint32)
    returns (fr: FResult, read: uint32, written: uint32)
    requires fil.Valid() && to <= from && from + size <= |fil.data|
    modifies fil
    ensures fil.Valid()
    ensures fil.faults >= old(fil.faults) && (fr.FR_OK? <==> fil.faults == old(fil.faults))
    ensures fr.FR_OK? ==> read == written == size
    ensures fr.FR_OK? ==> fil.data == Copied(old(fil.data), from, to, size)
    ensures !fr.FR_OK? ==> fil.data == old(fil.data)
  {
    read, written := 0, 0;
    fr := fil.Seek(from);
    if !fr.FR_OK? {
      return;
    }
    var buffer;
    fr, buffer := fil.Read(size);
    if !fr.FR_OK? {
      return;
    }
    read := |buffer|;
    fr := fil.Seek(to);
    if !fr.FR_OK? {
      return;
    }
    fr, written := fil.Write(buffer);
  }

  /** The same round, on a file of which the first `done` bytes have been moved. */
  method MoveOne(fil: File, ghost s: seq<byte>, index: uint32, done: uint32, from: uint32, size: uint32)
    returns (fr: FResult, read: uint32, written: uint32)
    requires fil.Valid() && from == index + done && from + size <= |s| < 0x1_0000_0000
    requires fil.data == Shifted(s, index, done)
    modifies fil
    ensures fil.Valid() && fil.faults >= old(fil.faults) && (fr.FR_OK? <==> fil.faults == old(fil.faults))
    ensures fr.FR_OK? ==> read == written == size && fil.data == Shifted(s, index, done + size)
    ensures !fr.FR_OK? ==> fil.data == Shifted(s, index, done)
  {
    hide Shifted, Copied;
    MoveBlock(s, index, done, size);
    fr, read, written := CopyBlock(fil, from, done, size);
  }

  /** The loop: moves everything from `index` on to the front, or stops at an error with
      `moved` bytes in place and the rest untouched. */
  method MoveForward(fil: File, index: uint32, total: uint32, blockSize: uint32)
    returns (fr: FResult, ghost moved: nat)
    requires fil.Valid() && blockSize > 0 && index + total == |fil.data|
    modifies fil
    ensures fil.Valid()
    ensures index + moved <= |old(fil.data)| && fil.data == Shifted(old(fil.data), index, moved)
    ensures fr.FR_OK? ==> moved == total
    ensures fil.faults >= old(fil.faults) && (fr.FR_OK? <==> fil.faults == old(fil.faults))
  {
    hide Shifted;
    ghost var s := fil.data;
    var readIndex: uint32, writeIndex: uint32, totalSize: uint32 := index, 0, total;
    NothingMoved(s, index);
    moved, fr := 0, FR_OK;
    while totalSize > 0
      invariant fil.Valid() && moved == writeIndex && fil.faults == old(fil.faults)
      invariant readIndex == index + writeIndex && readIndex + totalSize == |s|
      invariant fil.data == Shifted(s, index, writeIndex)
    {
      var size: uint32 := if totalSize > blockSize then blockSize else totalSize;
      var read, written;
      fr, read, written := MoveOne(fil, s, index, writeIndex, readIndex, size);
      if !fr.FR_OK? {
        return;
      }
      totalSize := totalSize - size;
      readIndex := readIndex + read;
      writeIndex := writeIndex + written;
      moved := writeIndex;
    }
    return FR_OK, moved;
  }

  /** `blockSize` is FATFS_TRUNCATE_BUFFER_SIZE. `cut` tells whether f_truncate succeeded,
      and `moved` how many bytes had been moved to the front by then. FR_OK does not mean
      the file was cut: the outcome of f_truncate is overwritten by that of the f_lseek
      after it. */
  method TruncateBeginning(fil: File, index: uint32, blockSize: uint32)
    returns (fr: FResult, ghost cut: bool, ghost moved: nat)
    requires fil.Valid() && blockSize > 0
    modifies fil
    ensures fil.Valid()
    ensures fr.FR_OK? ==>
              (fil.data == Suffix(old(fil.data), index) <==> cut || index == 0 || old(fil.data) == [])
    ensures fil.faults >= old(fil.faults)
    ensures fil.faults == old(fil.faults) ==> fr.FR_OK? && fil.data == Suffix(old(fil.data), index)
    ensures cut ==> fil.data == Suffix(old(fil.data), index)
    ensures !cut && index <= |old(fil.data)| ==>
              index + moved <= |old(fil.data)| && fil.data == Shifted(old(fil.data), index, moved)
    ensures !cut && index > |old(fil.data)| ==> fil.data == old(fil.data)
    ensures fr.FR_OK? && 0 < index <= |old(fil.data)| ==> moved == |old(fil.data)| - index
  {
    cut, moved := false, 0;
    ghost var s := fil.data;
    assert index <= |s| ==> Shifted(s, index, 0) == s;
    var fileSize: uint32 := |fil.data|;
    var totalSize: uint32 := ToU32(fileSize - index);
    if index == 0 || fileSize == 0 {
      return FR_OK, cut, moved;
    }
    if index > fileSize {
      fr := fil.Seek(0);
      if !fr.FR_OK? {
        return;
      }
      fr := fil.Truncate();
      cut := fr.FR_OK?;
      return;
    }
    fr, moved := MoveForward(fil, index, totalSize, blockSize);
    if !fr.FR_OK? {
      return;
    }
    fr := fil.Seek(totalSize);
    if !fr.FR_OK? {
      return;
    }
    fr := fil.Truncate();
    cut := fr.FR_OK?;
    fr := fil.Seek(0);
  }
}
