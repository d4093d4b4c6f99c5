/** The host side of the bus: phase signals, data bus direction and the REQ/ACK byte
    transfers of hostadapter.c. */
module HostAdapters {
  import opened Bytes
  import opened Geometry

  /** What can be seen on the bus. Every transfer is noted with the I/O signal at the time:
      true (asserted) means the target may drive the data bus. */
  datatype BusEvent =
    | Phase(msg: bool, cd: bool, io: bool)
    | Drive(io: bool, value: byte)
    | Sample(io: bool, value: byte)

  /** One look at a line the host drives, with what was found. */
  datatype Poll = Sel(active: bool) | Bsy(active: bool)

  function Drives(io: bool, d: seq<byte>): (events: seq<BusEvent>)
    ensures |events| == |d|
    ensures forall k :: 0 <= k < |d| ==> events[k] == Drive(io, d[k])
  {
    seq(|d|, k requires 0 <= k < |d| => Drive(io, d[k]))
  }

  function Samples(io: bool, d: seq<byte>): (events: seq<BusEvent>)
    ensures |events| == |d|
    ensures forall k :: 0 <= k < |d| ==> events[k] == Sample(io, d[k])
  {
    seq(|d|, k requires 0 <= k < |d| => Sample(io, d[k]))
  }

  lemma DrivesAppend(io: bool, a: seq<byte>, b: seq<byte>)
    ensures Drives(io, a + b) == Drives(io, a) + Drives(io, b)
  {
  }

  lemma SamplesAppend(io: bool, a: seq<byte>, b: seq<byte>)
    ensures Samples(io, a + b) == Samples(io, a) + Samples(io, b)
  {
  }

  lemma DrivesOne(io: bool, b: byte)
    ensures Drives(io, [b]) == [Drive(io, b)]
  {
  }

  lemma SamplesOne(io: bool, b: byte)
    ensures Samples(io, [b]) == [Sample(io, b)]
  {
  }

  /** Polls of the ACK line before a DMA transfer gives up. */
  const TOC_MAX: uint32 := 100000

  class HostAdapter {
    var nrstFlag: bool
    var msg: bool
    var cd: bool
    var io: bool
    var busy: bool
    var request: bool
    var databusOutput: bool
    ghost var bus: seq<BusEvent>
    /** A phase or a reset has set the signals since power-up. */
    ghost var settled: bool
    /** Every look at SEL and BSY, in order. */
    ghost var polls: seq<Poll>
    /** How many times REQ has been asserted. */
    ghost var strobes: nat
    /** How many looks at ACK in a row have found it inactive. */
    ghost var quiet: nat
    /** How often the host has pulled the reset line, or left a byte of a block unacknowledged
        for TOC_MAX polls. */
    ghost var disturbed: nat

    /** The data bus is an output exactly while I/O is asserted. Before the signals are set for
        the first time, it is an input whatever I/O is. */
    ghost predicate Valid()
      reads this`databusOutput, this`io, this`settled
    {
      (databusOutput ==> io) && (settled && io ==> databusOutput)
    }

    /** What every transfer keeps: the reset flag is set only by what the host does, BSY stays as
        it is, and neither SEL nor BSY is looked at. */
    twostate predicate Steady()
      reads this`nrstFlag, this`disturbed, this`busy, this`polls
    {
      && FlagKept() && busy == old(busy) && polls == old(polls)
    }

    twostate predicate FlagKept()
      reads this`nrstFlag, this`disturbed
    {
      && (old(nrstFlag) ==> nrstFlag) && disturbed >= old(disturbed)
      && (nrstFlag ==> old(nrstFlag) || disturbed > old(disturbed))
    }

    /** hostadapterInitialise makes I/O an output and, unlike the other signals, does not release
        it: the pins are active low, and an output that has not been written to is low. */
    constructor ()
      ensures Valid() && !settled && !nrstFlag && io && !databusOutput && bus == []
      ensures !busy && polls == []
    {
      nrstFlag, msg, cd, io, busy, request, databusOutput := false, false, false, true, false, false, false;
      bus, settled, polls, strobes, quiet, disturbed := [], false, [], 0, 0, 0;
    }

    /** Turns everything off, called when the host has signalled reset. */
    method Reset()
      modifies this`msg, this`cd, this`io, this`busy, this`request, this`databusOutput, this`settled
      ensures Valid() && settled && !io && !busy && !request && !msg && !cd && !databusOutput
    {
      settled := true;
      databusOutput := false;
      msg, busy, request, io, cd := false, false, false, false, false;
    }

    /** The reset line interrupts at any time it is not masked. */
    method Interrupts()
      modifies this`nrstFlag, this`disturbed
      ensures Steady() && (nrstFlag <==> old(nrstFlag) || disturbed > old(disturbed))
    {
      var reset: bool := *;
      if reset {
        nrstFlag := true;
        Disturb();
      }
    }

    /** The host has done something that ends a transfer. */
    ghost method Disturb()
      modifies this`disturbed
      ensures disturbed == old(disturbed) + 1
    {
      disturbed := disturbed + 1;
    }

    /** A look at SEL. */
    method ReadSelectFlag() returns (active: bool)
      modifies this`polls
      ensures polls == old(polls) + [Sel(active)]
    {
      active := *;
      polls := polls + [Sel(active)];
    }

    /** A look at BSY, which is active while the target itself asserts it. */
    method ReadBusyFlag() returns (active: bool)
      modifies this`polls
      ensures polls == old(polls) + [Bsy(active)] && (busy ==> active)
    {
      var others: bool := *;
      active := busy || others;
      polls := polls + [Bsy(active)];
    }

    /** A look at ACK. TOC_MAX of them in vain mean that the host has left the byte. */
    method AckInactive() returns (inactive: bool)
      modifies this`quiet, this`disturbed
      ensures quiet == if inactive then old(quiet) + 1 else 0
      ensures disturbed == old(disturbed) + if quiet == TOC_MAX then 1 else 0
    {
      inactive := *;
      quiet := if inactive then quiet + 1 else 0;
      if quiet == TOC_MAX {
        Disturb();
      }
    }

    method WriteDataPhaseFlags(message: bool, commandNotData: bool, inputNotOutput: bool)
      modifies this`msg, this`cd, this`io, this`databusOutput, this`bus, this`settled
      ensures Valid() && settled && databusOutput == inputNotOutput
      ensures msg == message && cd == commandNotData && io == inputNotOutput
      ensures bus == old(bus) + [Phase(message, commandNotData, inputNotOutput)]
    {
      msg, cd, settled := message, commandNotData, true;
      if inputNotOutput {
        io := true;
        databusOutput := true;
      } else {
        io := false;
        databusOutput := false;
      }
      bus := bus + [Phase(message, commandNotData, inputNotOutput)];
    }

    /** Reads the data bus without a handshake. */
    method ReadDatabus() returns (value: byte)
      modifies this`bus
      ensures bus == old(bus) + [Sample(io, value)]
    {
      var pins: int := *;
      value := ToU8(pins);
      bus := bus + [Sample(io, value)];
    }

    /** REQ becomes active. */
    method Request()
      modifies this`request, this`strobes
      ensures request && strobes == old(strobes) + 1
    {
      request := true;
      strobes := strobes + 1;
    }

    /** The wait for ACK ends when the host acknowledges or resets. */
    method ReadByte() returns (value: byte)
      modifies this`request, this`strobes, this`nrstFlag, this`disturbed, this`bus
      ensures Steady() && !request && strobes == old(strobes) + 1
      ensures bus == old(bus) + [Sample(io, value)]
    {
      Request();
      Interrupts();
      request := false;
      value := ReadDatabus();
    }

    method WriteByte(value: byte)
      modifies this`request, this`strobes, this`nrstFlag, this`disturbed, this`bus
      ensures Steady() && !request && strobes == old(strobes) + 1
      ensures bus == old(bus) + [Drive(io, value)]
    {
      bus := bus + [Drive(io, value)];
      Request();
      Interrupts();
      request := false;
    }

    /** Sends all of `d` byte by byte. */
    method WriteAll(d: seq<byte>)
      modifies this`request, this`strobes, this`nrstFlag, this`disturbed, this`bus
      ensures Steady() && strobes == old(strobes) + |d|
      ensures bus == old(bus) + Drives(io, d)
    {
      var i := 0;
      while i < |d|
        invariant 0 <= i <= |d|
        invariant Steady() && strobes == old(strobes) + i
        invariant bus == old(bus) + Drives(io, d[..i])
      {
        WriteByte(d[i]);
        DrivesAppend(io, d[..i], [d[i]]);
        DrivesOne(io, d[i]);
        assert d[..i + 1] == d[..i] + [d[i]];
        i := i + 1;
      }
      assert d[..i] == d;
    }

    /** Polls the ACK line; true when it has become active, false after TOC_MAX polls in vain. */
    method PollAck() returns (acknowledged: bool, timeoutCounter: uint32)
      modifies this`quiet, this`disturbed
      ensures timeoutCounter <= TOC_MAX
      ensures acknowledged ==> timeoutCounter != TOC_MAX && quiet == 0 && disturbed == old(disturbed)
      ensures !acknowledged ==> quiet == TOC_MAX && disturbed == old(disturbed) + 1
    {
      timeoutCounter := 0;
      quiet := 0;
      var inactive := AckInactive();
      while inactive
        invariant timeoutCounter < TOC_MAX
        invariant quiet == if inactive then timeoutCounter + 1 else 0
        invariant disturbed == old(disturbed) + if quiet == TOC_MAX then 1 else 0
        decreases TOC_MAX - timeoutCounter
      {
        timeoutCounter := timeoutCounter + 1;
        if timeoutCounter == TOC_MAX {
          return false, timeoutCounter;
        }
        inactive := AckInactive();
      }
      return true, timeoutCounter;
    }

    /** Sends a block to the host. `sent` bytes have been put on the bus, all of them unless
        the host stopped acknowledging; then the reset flag is set. */
    method PerformReadDMA(buffer: array<byte>) returns (transferred: uint16, ghost sent: nat)
      requires buffer.Length == SECTOR_SIZE
      modifies this`request, this`strobes, this`nrstFlag, this`quiet, this`disturbed, this`bus
      ensures Steady() && strobes == old(strobes) + sent
      ensures sent <= SECTOR_SIZE && (sent < SECTOR_SIZE ==> nrstFlag)
      ensures sent == transferred + 1
      ensures bus == old(bus) + Drives(io, buffer[..sent])
    {
      var currentByte: uint16 := 0;
      var timeoutCounter: uint32 := 0;
      sent := 0;
      while currentByte < SECTOR_SIZE && timeoutCounter != TOC_MAX
        invariant currentByte <= SECTOR_SIZE && timeoutCounter < TOC_MAX
        invariant nrstFlag == old(nrstFlag) && disturbed == old(disturbed)
        invariant strobes == old(strobes) + currentByte
        invariant bus == old(bus) + Drives(io, buffer[..currentByte])
        decreases SECTOR_SIZE - currentByte
      {
        DriveNext(io, buffer[..], currentByte);
        bus := bus + [Drive(io, buffer[currentByte])];
        currentByte := currentByte + 1;
        Request();
        var acknowledged;
        acknowledged, timeoutCounter := PollAck();
        if !acknowledged {
          nrstFlag := true;
          return currentByte - 1, currentByte;
        }
        request := false;
      }
      return currentByte - 1, currentByte;
    }

    /** Receives a block from the host. The first `received` bytes of the buffer are the ones
        sampled, all of them unless the host stopped acknowledging; then the reset flag is
        set. */
    method PerformWriteDMA(buffer: array<byte>) returns (transferred: uint16, ghost received: nat)
      requires buffer.Length == SECTOR_SIZE
      modifies this`request, this`strobes, this`nrstFlag, this`quiet, this`disturbed, this`bus, buffer
      ensures Steady() && strobes == old(strobes) + received + if received < SECTOR_SIZE then 1 else 0
      ensures received <= SECTOR_SIZE && (received < SECTOR_SIZE ==> nrstFlag)
      ensures transferred == if received == SECTOR_SIZE then SECTOR_SIZE - 1 else received
      ensures bus == old(bus) + Samples(io, buffer[..received])
    {
      var currentByte: uint16 := 0;
      var timeoutCounter: uint32 := 0;
      received := 0;
      while currentByte < SECTOR_SIZE && timeoutCounter != TOC_MAX
        invariant currentByte <= SECTOR_SIZE && timeoutCounter < TOC_MAX
        invariant nrstFlag == old(nrstFlag) && disturbed == old(disturbed)
        invariant strobes == old(strobes) + currentByte
        invariant bus == old(bus) + Samples(io, buffer[..currentByte])
        decreases SECTOR_SIZE - currentByte
      {
        Request();
        var acknowledged;
        acknowledged, timeoutCounter := PollAck();
        if !acknowledged {
          nrstFlag := true;
          return currentByte, currentByte;
        }
        ghost var before := buffer[..currentByte];
        var value := ReadDatabus();
        buffer[currentByte] := value;
        SampleNext(io, before, value);
        assert buffer[..currentByte + 1] == before + [value];
        currentByte := currentByte + 1;
        request := false;
      }
      return currentByte - 1, currentByte;
    }
  }

  lemma DriveNext(io: bool, d: seq<byte>, k: nat)
    requires k < |d|
    ensures Drives(io, d[..k + 1]) == Drives(io, d[..k]) + [Drive(io, d[k])]
  {
  }

  lemma SampleNext(io: bool, d: seq<byte>, value: byte)
    ensures Samples(io, d + [value]) == Samples(io, d) + [Sample(io, value)]
  {
  }
}
