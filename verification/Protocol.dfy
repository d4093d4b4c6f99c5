/** What the SCSI target promises over whole runs, stated on the history of its main loop:
    the order of bus phases, who drives the data bus, and the sense data of each LUN. */
module Protocol {
  import opened Arithmetic
  import opened Bytes
  import opened Geometry
  import opened HostAdapters

  /** scsiState. Undefined stands for every value the emulation does not know. */
  datatype ScsiState =
    | BusFree | Command | Status | Message | BusBusy | Select
    | TestUnitReady | RezeroUnit | RequestSense | Format | Read6 | Write6 | Seek | Translate
    | ModeSelect | ModeSense | StartStop | Verify | Inquiry | Undefined

  // ---- Sense data -----------------------------------------------------------------

  datatype SenseData = SenseData(errorFlag: bool, validAddress: bool, errorClass: byte, errorCode: byte, lba: uint32)

  const NO_SENSE: SenseData := SenseData(false, false, 0, 0, 0)

  /** The four bytes REQUEST SENSE sends: of the code only the low half, of the address only
      21 bits. */
  function EncodeSense(s: SenseData): (r: seq<byte>)
    ensures |r| == 4
    ensures !s.errorFlag ==> r == [0, 0, 0, 0]
  {
    if !s.errorFlag then [0, 0, 0, 0]
    else
      var valid: int := if s.validAddress then 128 else 0;
      var errorClass: int, errorCode: int := s.errorClass, s.errorCode;
      [valid + errorClass % 8 * 16 + errorCode % 16,
       s.lba / 0x1_0000 % 32, s.lba / 0x100 % 0x100, s.lba % 0x100]
  }

  /** The first sense byte taken apart. */
  lemma CodeDecodes(valid: bool, errorClass: nat, errorCode: nat)
    requires errorClass < 8 && errorCode < 16
    ensures var b := (if valid then 128 else 0) + errorClass * 16 + errorCode;
            (b >= 128 <==> valid) && b / 16 % 8 == errorClass && b % 16 == errorCode
  {
    if valid {
      UniqueQuotient(128 + errorClass * 16 + errorCode, 16, 8 + errorClass, errorCode);
    } else {
      UniqueQuotient(errorClass * 16 + errorCode, 16, errorClass, errorCode);
    }
  }

  /** The other three put together. */
  lemma AddressDecodes(lba: nat)
    ensures BigEndian(lba / 0x1_0000 % 32, lba / 0x100 % 0x100, lba % 0x100) == lba % 0x20_0000
  {
    var a, low := lba / 0x100, lba % 0x100;
    var c, middle := a / 0x100, a % 0x100;
    var q, high := c / 32, c % 32;
    UniqueQuotient(lba, 0x1_0000, c, middle * 0x100 + low);
    UniqueQuotient(lba, 0x20_0000, q, high * 0x1_0000 + middle * 0x100 + low);
  }

  lemma Below(n: nat, d: nat)
    requires d > 0
    ensures n % d == n <==> n < d
  {
  }

  /** What the host can read back: the valid bit, three bits of the class, four of the code,
      and the address exactly when it fits the 21 bits sent. */
  lemma SenseDecodes(s: SenseData)
    requires s.errorFlag
    ensures var r := EncodeSense(s);
            && (r[0] >= 128 <==> s.validAddress)
            && r[0] / 16 % 8 == s.errorClass % 8 && r[0] % 16 == s.errorCode % 16
            && BigEndian(r[1], r[2], r[3]) == s.lba % 0x20_0000
            && (BigEndian(r[1], r[2], r[3]) == s.lba <==> s.lba < 0x20_0000)
  {
    hide BigEndian;
    CodeDecodes(s.validAddress, s.errorClass % 8, s.errorCode % 16);
    AddressDecodes(s.lba);
    Below(s.lba, 0x20_0000);
  }

  /** What a step does to the sense data. */
  datatype Action = NoAction | Recorded(lun: nat, sense: SenseData) | Reported(lun: nat)

  /** What is recorded does not look like no error when it is reported. */
  predicate Reportable(a: Action)
  {
    a.Recorded? ==> a.sense.errorFlag && EncodeSense(a.sense)[0] != 0
  }

  /** The sense data of all LUNs after an action. */
  function Noted(sense: seq<SenseData>, a: Action): (r: seq<SenseData>)
    requires a.NoAction? || a.lun < |sense|
    ensures |r| == |sense|
  {
    match a
    case NoAction => sense
    case Recorded(lun, s) => sense[lun := s]
    case Reported(lun) => sense[lun := NO_SENSE]
  }

  // ---- Bus phases -------------------------------------------------------------------

  /** Section 6.1.5 of ANSI X3.131-1994: MSG, C/D and I/O of each information transfer phase. */
  const DATA_OUT: BusEvent := Phase(false, false, false)
  const DATA_IN: BusEvent := Phase(false, false, true)
  const COMMAND: BusEvent := Phase(false, true, false)
  const STATUS: BusEvent := Phase(false, true, true)
  const MESSAGE_IN: BusEvent := Phase(true, true, true)

  predicate DataIn(events: seq<BusEvent>)
  {
    |events| >= 1 && events[0] == DATA_IN && forall k :: 1 <= k < |events| ==> events[k].Drive? && events[k].io
  }

  predicate DataOut(events: seq<BusEvent>)
  {
    |events| >= 1 && events[0] == DATA_OUT && forall k :: 1 <= k < |events| ==> events[k].Sample? && !events[k].io
  }

  /** At most one data phase, in one direction. */
  predicate DataPhase(events: seq<BusEvent>)
  {
    events == [] || DataIn(events) || DataOut(events)
  }

  /** The target drives the data bus only with I/O asserted and samples it only with I/O
      released. */
  predicate WellDriven(events: seq<BusEvent>)
  {
    forall e :: e in events ==> (e.Drive? ==> e.io) && (e.Sample? ==> !e.io)
  }

  /** The I/O signal after some events. */
  function IoAfter(events: seq<BusEvent>, io: bool): bool
  {
    if events == [] then io
    else
      var last := events[|events| - 1];
      if last.Phase? then last.io else IoAfter(events[..|events| - 1], io)
  }

  lemma {:induction false} IoAfterPhase(events: seq<BusEvent>, io: bool)
    requires |events| >= 1 && events[0].Phase?
    requires forall k :: 1 <= k < |events| ==> !events[k].Phase?
    ensures IoAfter(events, io) == events[0].io
  {
    if |events| > 1 {
      IoAfterPhase(events[..|events| - 1], io);
    }
  }

  // ---- Steps of the main loop -------------------------------------------------------

  /** The command a descriptor block selects. */
  function Decode(cdb: seq<byte>): ScsiState
    requires |cdb| >= 1
  {
    var group, opCode := cdb[0] / 32, cdb[0] % 32;
    if group == 0 then
      match opCode
      case 0x00 => TestUnitReady
      case 0x01 => RezeroUnit
      case 0x03 => RequestSense
      case 0x04 => Format
      case 0x08 => Read6
      case 0x0A => Write6
      case 0x0B => Seek
      case 0x12 => Inquiry
      case 0x0F => Translate
      case 0x15 => ModeSelect
      case 0x1A => ModeSense
      case 0x1B => StartStop
      case _ => BusFree
    else if group == 1 && opCode == 0x0F then Verify
    else BusFree
  }

  /** The command table: each command has its one first byte, and every other first byte is no
      command. */
  lemma CommandTable(cdb: seq<byte>)
    requires |cdb| >= 1
    ensures Decode(cdb).TestUnitReady? <==> cdb[0] == 0x00
    ensures Decode(cdb).RezeroUnit? <==> cdb[0] == 0x01
    ensures Decode(cdb).RequestSense? <==> cdb[0] == 0x03
    ensures Decode(cdb).Format? <==> cdb[0] == 0x04
    ensures Decode(cdb).Read6? <==> cdb[0] == 0x08
    ensures Decode(cdb).Write6? <==> cdb[0] == 0x0A
    ensures Decode(cdb).Seek? <==> cdb[0] == 0x0B
    ensures Decode(cdb).Translate? <==> cdb[0] == 0x0F
    ensures Decode(cdb).Inquiry? <==> cdb[0] == 0x12
    ensures Decode(cdb).ModeSelect? <==> cdb[0] == 0x15
    ensures Decode(cdb).ModeSense? <==> cdb[0] == 0x1A
    ensures Decode(cdb).StartStop? <==> cdb[0] == 0x1B
    ensures Decode(cdb).Verify? <==> cdb[0] == 0x2F
    ensures Decode(cdb).BusFree? <==>
              cdb[0] !in {0x00, 0x01, 0x03, 0x04, 0x08, 0x0A, 0x0B, 0x0F, 0x12, 0x15, 0x1A, 0x1B, 0x2F}
  {
    UniqueQuotient(cdb[0], 32, cdb[0] / 32, cdb[0] % 32);
  }

  predicate IsCommand(s: ScsiState)
  {
    match s
    case TestUnitReady | RezeroUnit | RequestSense | Format | Read6 | Write6 | Seek | Translate => true
    case ModeSelect | ModeSense | StartStop | Verify => true
    case _ => false
  }

  predicate Executing(s: ScsiState)
  {
    IsCommand(s) || s.Inquiry?
  }

  /** A command block as long as the group in its first byte asks for. */
  predicate WholeBlock(cdb: seq<byte>)
  {
    && |cdb| >= 1
    && (cdb[0] / 32 == 0 || cdb[0] / 32 == 6 ==> |cdb| == 6)
    && (cdb[0] / 32 == 1 ==> |cdb| == 10)
  }

  /** The LUN a command block addresses. */
  function LunOf(cdb: seq<byte>): (lun: nat)
    ensures lun < 8
  {
    if |cdb| >= 2 then cdb[1] / 32 else 0
  }

  /** One round of the main loop: the state it started in and the state the emulation went
      to, what happened on the bus, the looks at SEL and BSY, the command block received or carried
      out, the LUN addressed and whether it was stopped, the status byte afterwards, the blocks
      WRITE(6) has handed to the card and what the file written could grow by, whether a FatFs call
      has failed for reasons of its own, whether the host has pulled the reset line or left a byte
      unacknowledged, and whether the round ended with a reset. */
  datatype Step = Step(pre: ScsiState, post: ScsiState, events: seq<BusEvent>, polls: seq<Poll>, cdb: seq<byte>,
                       lun: nat, stopped: bool, status: byte, action: Action,
                       blocks: nat, growth: nat, faulted: bool, disturbed: bool, reset: bool)

  function Next(t: Step): ScsiState
  {
    if t.reset then BusFree else t.post
  }

  /** The status byte that reports a failed command. */
  function CheckCondition(lun: nat): int
  {
    lun * 32 + 2
  }

  /** A command ends with good status, or with a check condition and an error on record. VERIFY
      of a stopped LUN alone fails and records nothing. */
  predicate Concludes(t: Step)
  {
    if t.pre.Verify? && t.stopped then t.status == CheckCondition(t.lun) && t.action.NoAction?
    else t.status != 0 ==> t.status == CheckCondition(t.lun) && t.action.Recorded? && t.action.lun == t.lun
  }

  /** INQUIRY either stays off the bus, or asserts I/O and samples all the same. */
  predicate InquiryEvents(events: seq<BusEvent>)
  {
    events != [] ==>
      events[0] == DATA_IN && forall k :: 1 <= k < |events| ==> events[k].Sample? && events[k].io
  }

  /** The bit of the target's ID on the data bus during selection: 1 << targetId. */
  const TARGET_MASK: nat := 2

  /** The ID bit of the target is set in a byte sampled during selection. */
  predicate OwnId(value: byte)
  {
    value / TARGET_MASK % 2 == 1
  }

  /** Ticks a selected target waits for the host to release SEL. */
  const SELECT_TIMEOUT: nat := 250

  /** The host has kept SEL asserted for longer. */
  predicate HeldSel(polls: seq<Poll>)
  {
    |polls| > SELECT_TIMEOUT && forall k :: 0 <= k < |polls| ==> polls[k] == Sel(true)
  }

  /** SEL has been polled until the host has released it. */
  predicate Awaited(polls: seq<Poll>)
  {
    && polls != [] && polls[|polls| - 1] == Sel(false)
    && forall k :: 0 <= k < |polls| - 1 ==> polls[k] == Sel(true)
  }

  /** What one step may do, given the I/O signal before it. INQUIRY may go to any state. A reset
      comes from the host. */
  predicate LegalStep(t: Step, io: bool)
  {
    && Reportable(t.action)
    && (t.reset ==> t.disturbed || HeldSel(t.polls))
    && (t.action.NoAction? || t.action.lun == t.lun)
    && (!IsCommand(t.pre) && !t.pre.Inquiry? ==> t.action.NoAction?)
    && (!(t.pre.BusFree? || t.pre.BusBusy? || t.pre.Select?) ==> t.polls == [])
    && match t.pre
       case BusFree => Passed(t) || (t.events == [] && t.post.Select? && t.polls == [Sel(true)])
       case BusBusy => Passed(t) || (t.polls != [] && t.polls[0] == Sel(true) && Selection(t, io, t.polls[1..]))
       case Select => Selection(t, io, t.polls)
       case Command =>
         WholeBlock(t.cdb) && t.events == [COMMAND] + Samples(false, t.cdb) && t.post == Decode(t.cdb)
       case Status => t.events == [STATUS, Drive(true, t.status)] && t.post.Message?
       case Message => t.events == [MESSAGE_IN, Drive(true, 0)] && t.post.BusFree?
       case Inquiry => InquiryEvents(t.events)
       case Undefined => t.events == [] && t.post.Undefined?
       case _ =>
         && DataPhase(t.events)
         && (t.post.Status? || (t.post.BusFree? && t.reset))
         && (t.post.Status? ==> Concludes(t))
  }

  /** SEL has not been found active, and BSY tells a free bus from a busy one. */
  predicate Passed(t: Step)
  {
    && t.events == []
    && ((t.post.BusBusy? && t.polls == [Sel(false), Bsy(true)])
        || (t.post.BusFree? && t.polls == [Sel(false), Bsy(false)]))
  }

  /** One sample of the data bus decides; a target that is selected waits for the host to release
      SEL. */
  predicate Selection(t: Step, io: bool, polls: seq<Poll>)
  {
    && |t.events| == 1 && t.events[0].Sample? && t.events[0].io == io
    && if OwnId(t.events[0].value) then t.post.Command? && (t.reset || Awaited(polls))
       else t.post.BusBusy? && polls == []
  }

  // ---- Runs -------------------------------------------------------------------------

  /** The I/O signal after a history. It is asserted from power-up on. */
  function Io(h: seq<Step>): bool
  {
    if h == [] then true
    else
      var t := h[|h| - 1];
      !t.reset && IoAfter(t.events, Io(h[..|h| - 1]))
  }

  /** The target answers a selection: it asserts BSY. */
  predicate Answers(t: Step)
  {
    (t.pre.Select? || t.pre.BusBusy?) && t.post.Command?
  }

  /** A target that asserts BSY finds it active. */
  predicate FindsOwnBusy(t: Step, busy: bool)
  {
    busy ==> Bsy(false) !in t.polls
  }

  /** Whether the target asserts BSY after a history. */
  predicate Busy(h: seq<Step>)
  {
    h != [] && !h[|h| - 1].reset && (Answers(h[|h| - 1]) || Busy(h[..|h| - 1]))
  }

  /** All the looks at SEL and BSY of a history. */
  function Polled(h: seq<Step>): seq<Poll>
  {
    if h == [] then [] else Polled(h[..|h| - 1]) + h[|h| - 1].polls
  }

  /** The sense data of a LUN after a history: what was recorded last, unless it has been
      reported or a reset has come since. */
  function Replay(h: seq<Step>, lun: nat): SenseData
  {
    if h == [] then NO_SENSE
    else
      var t := h[|h| - 1];
      if t.reset then NO_SENSE
      else if t.action.Recorded? && t.action.lun == lun then t.action.sense
      else if t.action.Reported? && t.action.lun == lun then NO_SENSE
      else Replay(h[..|h| - 1], lun)
  }

  function StateAfter(h: seq<Step>): ScsiState
  {
    if h == [] then BusFree else Next(h[|h| - 1])
  }

  /** The command block the host has sent last, as sampled from the bus. */
  function Received(h: seq<Step>): seq<byte>
  {
    if h == [] then []
    else
      var t := h[|h| - 1];
      if t.pre.Command? then t.cdb else Received(h[..|h| - 1])
  }

  /** The command block step j has to carry out, and the LUN that block addresses. */
  function Block(h: seq<Step>, j: nat): seq<byte>
    requires j <= |h|
  {
    Received(h[..j])
  }

  function SentTo(h: seq<Step>, j: nat): (lun: nat)
    requires j <= |h|
    ensures lun < 8
  {
    LunOf(Block(h, j))
  }

  /** The step carries out the block received, on the LUN that block addresses. */
  predicate Obeys(t: Step, received: seq<byte>)
  {
    Executing(t.pre) ==> |t.cdb| == 12 && received <= t.cdb && t.lun == LunOf(t.cdb)
  }

  /** Step i continues the steps before it. */
  predicate StepOk(h: seq<Step>, i: nat)
    requires i < |h|
  {
    var before, t := h[..i], h[i];
    && t.pre == StateAfter(before)
    && LegalStep(t, Io(before))
    && FindsOwnBusy(t, Busy(before))
    && Obeys(t, Received(before))
    && ((t.pre.Status? || t.pre.Message?) && i > 0 ==> t.status == h[i - 1].status)
    && (t.pre.RequestSense? ==>
          && t.action == Reported(t.lun) && t.status == 0
          && t.events == [DATA_IN] + Drives(true, EncodeSense(Replay(before, t.lun))))
  }

  ghost predicate Run(h: seq<Step>)
  {
    forall i: nat :: i < |h| ==> StepOk(h, i)
  }

  lemma RunGrows(h: seq<Step>, t: Step)
    requires Run(h) && StepOk(h + [t], |h|)
    ensures Run(h + [t])
  {
    var longer := h + [t];
    forall i: nat | i < |longer|
      ensures StepOk(longer, i)
    {
      if i < |h| {
        assert StepOk(h, i);
        assert longer[..i] == h[..i];
      }
    }
  }

  /** A reset line pulled after a step leaves the step legal, and so does a failure of FatFs while
      the reset is dealt with. */
  lemma ResetIsLegal(t: Step, io: bool)
    requires LegalStep(t, io)
    ensures LegalStep(t.(disturbed := true, reset := true), io)
  {
  }

  lemma FaultIsLegal(t: Step, io: bool)
    requires LegalStep(t, io)
    ensures LegalStep(t.(faulted := true), io)
  {
  }

  /** One more step. */
  lemma Extended(h: seq<Step>, t: Step)
    ensures StateAfter(h + [t]) == Next(t)
    ensures Io(h + [t]) == (!t.reset && IoAfter(t.events, Io(h)))
    ensures Received(h + [t]) == if t.pre.Command? then t.cdb else Received(h)
    ensures Busy(h + [t]) <==> !t.reset && (Answers(t) || Busy(h))
    ensures Polled(h + [t]) == Polled(h) + t.polls
    ensures Traffic(h + [t], 0, |h| + 1) == Traffic(h, 0, |h|) + t.events
  {
    assert (h + [t])[..|h|] == h;
    TrafficPrefix(h, t, |h|);
  }

  lemma {:induction false} TrafficPrefix(h: seq<Step>, t: Step, n: nat)
    requires n <= |h|
    ensures Traffic(h + [t], 0, n) == Traffic(h, 0, n)
  {
    if n > 0 {
      TrafficPrefix(h, t, n - 1);
    }
  }

  lemma SenseExtended(h: seq<Step>, t: Step, sense: seq<SenseData>, lun: nat)
    requires lun < |sense| && sense[lun] == Replay(h, lun)
    requires t.action.NoAction? || t.action.lun < |sense|
    ensures Replay(h + [t], lun) == if t.reset then NO_SENSE else Noted(sense, t.action)[lun]
  {
    assert (h + [t])[..|h|] == h;
  }

  /** The step continues the run. */
  lemma StepContinues(h: seq<Step>, t: Step)
    requires t.pre == StateAfter(h) && LegalStep(t, Io(h)) && FindsOwnBusy(t, Busy(h)) && Obeys(t, Received(h))
    requires (t.pre.Status? || t.pre.Message?) && h != [] ==> t.status == h[|h| - 1].status
    requires t.pre.RequestSense? ==>
               && t.action == Reported(t.lun) && t.status == 0
               && t.events == [DATA_IN] + Drives(true, EncodeSense(Replay(h, t.lun)))
    ensures StepOk(h + [t], |h|)
  {
    assert (h + [t])[..|h|] == h;
  }

  // ---- What the host has asked for -----------------------------------------------------

  lemma RunPrefix(h: seq<Step>, k: nat)
    requires Run(h) && k <= |h|
    ensures Run(h[..k])
  {
    forall i: nat | i < k
      ensures StepOk(h[..k], i)
    {
      assert StepOk(h, i) && h[..k][..i] == h[..i];
    }
  }

  /** When a command is about to be carried out, a whole block has been received. */
  lemma {:induction false} BlockIsWhole(h: seq<Step>)
    requires Run(h) && Executing(StateAfter(h))
    ensures |Received(h)| >= 6
  {
    assert h != [];
    var last := |h| - 1;
    assert StepOk(h, last);
    if h[last].pre.Inquiry? {
      RunPrefix(h, last);
      BlockIsWhole(h[..last]);
    }
  }

  /** Every command is carried out on the LUN the host has sent it to, with the block the host
      has sent; that block is the one of the step before, and its first byte names the command,
      unless INQUIRY has just left the state to chance. */
  lemma ExecutesReceived(h: seq<Step>, j: nat)
    requires Run(h) && j < |h| && Executing(h[j].pre)
    ensures |Block(h, j)| >= 6 && |h[j].cdb| == 12 && Block(h, j) <= h[j].cdb && h[j].lun == SentTo(h, j)
    ensures j > 0 && (h[j - 1].pre.Command? || h[j - 1].pre.Inquiry?)
    ensures h[j - 1].pre.Command? ==>
              && Block(h, j) == h[j - 1].cdb && h[j].pre == Decode(h[j - 1].cdb)
              && h[j - 1].events == [COMMAND] + Samples(false, h[j - 1].cdb)
  {
    assert StepOk(h, j);
    RunPrefix(h, j);
    BlockIsWhole(h[..j]);
    assert StepOk(h, j - 1) && h[..j][j - 1] == h[j - 1];
  }

  // ---- Phase order ------------------------------------------------------------------

  /** What steps i, i + 1, ... i + n - 1 put on the bus. */
  function Traffic(h: seq<Step>, i: nat, n: nat): seq<BusEvent>
    requires i + n <= |h|
  {
    if n == 0 then [] else Traffic(h, i, n - 1) + h[i + n - 1].events
  }

  /** The bus traffic of a command cut short after n of its four steps. */
  predicate Grammatical(events: seq<BusEvent>, n: nat, cdb: seq<byte>, data: seq<BusEvent>, status: byte)
  {
    var command := [COMMAND] + Samples(false, cdb);
    match n
    case 1 => events == command
    case 2 => events == command + data
    case 3 => events == command + data + [STATUS, Drive(true, status)]
    case 4 => events == command + data + [STATUS, Drive(true, status)] + [MESSAGE_IN, Drive(true, 0)]
    case _ => false
  }

  lemma Chain(h: seq<Step>, i: nat)
    requires Run(h) && i + 1 < |h|
    ensures h[i + 1].pre == Next(h[i])
    ensures h[i + 1].pre.Status? || h[i + 1].pre.Message? ==> h[i + 1].status == h[i].status
  {
    assert StepOk(h, i + 1);
    assert h[..i + 1][i] == h[i];
  }

  lemma TrafficStep(h: seq<Step>, i: nat, n: nat)
    requires i + n < |h|
    ensures Traffic(h, i, n + 1) == Traffic(h, i, n) + h[i + n].events
    ensures Traffic(h, i, 1) == h[i].events
  {
    assert Traffic(h, i, 0) == [];
  }

  lemma TrafficOf(h: seq<Step>, i: nat, n: nat)
    requires i + n <= |h| && 1 <= n <= 4
    ensures Traffic(h, i, n) ==
      if n == 1 then h[i].events
      else if n == 2 then h[i].events + h[i + 1].events
      else if n == 3 then h[i].events + h[i + 1].events + h[i + 2].events
      else h[i].events + h[i + 1].events + h[i + 2].events + h[i + 3].events
  {
    hide Traffic;
    TrafficStep(h, i, 0);
    if n >= 2 {
      TrafficStep(h, i, 1);
    }
    if n >= 3 {
      TrafficStep(h, i, 2);
    }
    if n >= 4 {
      TrafficStep(h, i, 3);
    }
  }

  /** What Run says about each of the four kinds of steps of a command. */
  lemma CommandStep(h: seq<Step>, i: nat)
    requires Run(h) && i < |h| && h[i].pre.Command?
    ensures WholeBlock(h[i].cdb) && h[i].post == Decode(h[i].cdb)
    ensures h[i].events == [COMMAND] + Samples(false, h[i].cdb) && WellDriven(h[i].events)
    ensures IsCommand(h[i].post) || h[i].post.Inquiry? || h[i].post.BusFree?
  {
    assert StepOk(h, i);
  }

  lemma ExecutionStep(h: seq<Step>, i: nat)
    requires Run(h) && i < |h| && IsCommand(h[i].pre)
    ensures DataPhase(h[i].events) && WellDriven(h[i].events)
    ensures !h[i].reset ==> h[i].post.Status? && Concludes(h[i])
  {
    assert StepOk(h, i);
  }

  lemma StatusStep(h: seq<Step>, i: nat)
    requires Run(h) && i < |h| && h[i].pre.Status?
    ensures h[i].events == [STATUS, Drive(true, h[i].status)] && WellDriven(h[i].events)
    ensures h[i].post.Message?
  {
    assert StepOk(h, i);
  }

  lemma MessageStep(h: seq<Step>, i: nat)
    requires Run(h) && i < |h| && h[i].pre.Message?
    ensures h[i].events == [MESSAGE_IN, Drive(true, 0)] && WellDriven(h[i].events)
    ensures h[i].post.BusFree?
  {
    assert StepOk(h, i);
  }

  /** Every command that is not INQUIRY runs Command, at most one Data-in or Data-out, Status,
      Message-in, and is back at bus free after at most four steps; fewer only when the
      command is unknown or a reset comes. `n` is the number of steps. */
  lemma CommandRun(h: seq<Step>, i: nat) returns (n: nat, data: seq<BusEvent>)
    requires Run(h) && i + 4 <= |h|
    requires h[i].pre.Command? && !h[i].post.Inquiry?
    ensures 1 <= n <= 4
    ensures forall j :: i <= j < i + n ==> (Next(h[j]).BusFree? <==> j == i + n - 1)
    ensures DataPhase(data)
    ensures Grammatical(Traffic(h, i, n), n, h[i].cdb, data, h[i + n - 1].status)
    ensures n < 4 ==> h[i + n - 1].reset || (n == 1 && |h[i].cdb| >= 1 && Decode(h[i].cdb).BusFree?)
    ensures n >= 2 ==>
              && |h[i].cdb| >= 6 && h[i].cdb <= h[i + 1].cdb
              && h[i + 1].pre == Decode(h[i].cdb) && h[i + 1].lun == LunOf(h[i].cdb)
    ensures n == 4 ==> Concludes(h[i + 1]) && h[i + 2].status == h[i + 1].status
    ensures forall j :: i <= j < i + n ==> WellDriven(h[j].events)
  {
    hide StepOk, WellDriven, Traffic, DataPhase, Concludes, Decode, IsCommand, Run, Samples,
         Grammatical;
    Chain(h, i);
    Chain(h, i + 1);
    Chain(h, i + 2);
    data := [];
    CommandStep(h, i);
    if h[i].reset || h[i].post.BusFree? {
      n := 1;
      assert DataPhase([]) by { NoDataPhase(); }
    } else {
      data := h[i + 1].events;
      ExecutionStep(h, i + 1);
      CarriesOut(h, i);
      if h[i + 1].reset {
        n := 2;
      } else {
        StatusStep(h, i + 2);
        if h[i + 2].reset {
          n := 3;
        } else {
          MessageStep(h, i + 3);
          n := 4;
        }
      }
    }
    TrafficIsPhrase(h, i, n, h[i].cdb, data, h[i + n - 1].status);
  }

  lemma TrafficIsPhrase(h: seq<Step>, i: nat, n: nat, cdb: seq<byte>, data: seq<BusEvent>, status: byte)
    requires i + n <= |h| && 1 <= n <= 4
    requires h[i].events == [COMMAND] + Samples(false, cdb)
    requires n >= 2 ==> h[i + 1].events == data
    requires n >= 3 ==> h[i + 2].events == [STATUS, Drive(true, status)]
    requires n >= 4 ==> h[i + 3].events == [MESSAGE_IN, Drive(true, 0)]
    ensures Grammatical(Traffic(h, i, n), n, cdb, data, status)
  {
    hide Traffic, Samples;
    TrafficOf(h, i, n);
  }

  /** The step after that of a command block carries the block out. */
  lemma CarriesOut(h: seq<Step>, i: nat)
    requires Run(h) && i + 1 < |h| && h[i].pre.Command? && Executing(h[i + 1].pre)
    ensures |h[i].cdb| >= 6 && h[i].cdb <= h[i + 1].cdb
    ensures h[i + 1].pre == Decode(h[i].cdb) && h[i + 1].lun == LunOf(h[i].cdb)
  {
    ExecutesReceived(h, i + 1);
  }

  lemma NoDataPhase()
    ensures DataPhase([])
  {
  }

  // ---- Selection ------------------------------------------------------------------------

  /** The step looks at the data bus for its own ID. */
  predicate Selects(t: Step)
  {
    (t.pre.Select? || t.pre.BusBusy?) && t.events != []
  }

  /** The step leaves the signals as they are. */
  predicate Idles(t: Step)
  {
    t.pre.BusFree? || t.pre.BusBusy? || t.pre.Select? || t.pre.Undefined? || (t.pre.Inquiry? && t.events == [])
  }

  predicate AtRest(s: ScsiState)
  {
    s.BusFree? || s.BusBusy? || s.Select? || s.Undefined? || s.Inquiry?
  }

  /** Step k is the last before i that has set the signals, and no reset has come since. */
  predicate LeftBy(h: seq<Step>, i: nat, k: nat)
    requires i <= |h|
  {
    && k < i && !Idles(h[k])
    && (forall j :: k < j < i ==> Idles(h[j]))
    && (forall j :: k <= j < i ==> !h[j].reset)
  }

  /** No step before i has set the signals, and no reset has come. */
  predicate Fresh(h: seq<Step>, i: nat)
    requires i <= |h|
  {
    forall j :: 0 <= j < i ==> Idles(h[j]) && !h[j].reset
  }

  /** The signals are still those of a command that has run to its end, or of an INQUIRY that
      has been on the bus. */
  ghost predicate LeftByCommand(h: seq<Step>, i: nat)
    requires i <= |h|
  {
    exists k: nat :: LeftBy(h, i, k) && (h[k].pre.Message? || h[k].pre.Inquiry?)
  }

  /** The signals are still those of power-up, or of such a command. */
  ghost predicate LeftAsserted(h: seq<Step>, i: nat)
    requires i <= |h|
  {
    Fresh(h, i) || LeftByCommand(h, i)
  }

  lemma IdleStep(t: Step, io: bool)
    requires LegalStep(t, io) && Idles(t)
    ensures IoAfter(t.events, io) == io
  {
    if t.events != [] {
      assert t.events[..0] == [];
    }
  }

  lemma LeftByBefore(h: seq<Step>, k: nat)
    requires h != [] && k < |h| - 1 && Idles(h[|h| - 1]) && !h[|h| - 1].reset
    ensures LeftBy(h, |h|, k) <==> LeftBy(h[..|h| - 1], |h| - 1, k)
  {
    hide Idles;
    var last := |h| - 1;
    if LeftBy(h[..last], last, k) {
      forall j | k <= j < |h|
        ensures !h[j].reset && (j > k ==> Idles(h[j]))
      {
        assert j < last ==> h[j] == h[..last][j];
      }
    }
  }

  lemma LeftByCommandStep(h: seq<Step>)
    requires h != []
    ensures var last := |h| - 1;
            LeftByCommand(h, |h|) <==>
              && !h[last].reset
              && if Idles(h[last]) then LeftByCommand(h[..last], last) else h[last].pre.Message? || h[last].pre.Inquiry?
  {
    hide Idles;
    var last := |h| - 1;
    if LeftByCommand(h, |h|) {
      var k: nat :| LeftBy(h, |h|, k) && (h[k].pre.Message? || h[k].pre.Inquiry?);
      if Idles(h[last]) {
        LeftByBefore(h, k);
        assert h[..last][k] == h[k];
      }
    } else if !h[last].reset {
      if !Idles(h[last]) {
        assert LeftBy(h, |h|, last);
      } else if LeftByCommand(h[..last], last) {
        var k: nat :| LeftBy(h[..last], last, k) && (h[..last][k].pre.Message? || h[..last][k].pre.Inquiry?);
        LeftByBefore(h, k);
      }
    }
  }

  lemma LeftAssertedStep(h: seq<Step>)
    requires h != []
    ensures var last := |h| - 1;
            LeftAsserted(h, |h|) <==>
              && !h[last].reset
              && if Idles(h[last]) then LeftAsserted(h[..last], last) else h[last].pre.Message? || h[last].pre.Inquiry?
  {
    hide Idles, Fresh, LeftByCommand;
    FreshStep(h);
    LeftByCommandStep(h);
  }

  lemma FreshStep(h: seq<Step>)
    requires h != []
    ensures var last := |h| - 1;
            Fresh(h, |h|) <==> Idles(h[last]) && !h[last].reset && Fresh(h[..last], last)
  {
    hide Idles;
    var last := |h| - 1;
    if Idles(h[last]) && !h[last].reset && Fresh(h[..last], last) {
      forall j | 0 <= j < |h|
        ensures Idles(h[j]) && !h[j].reset
      {
        assert j < last ==> h[j] == h[..last][j];
      }
    }
  }

  /** Between commands I/O is asserted exactly if nothing has been on the bus since power-up or a
      command has run to its end, and no reset has come since, however long the target has
      idled. */
  lemma {:induction false} IoAtRest(h: seq<Step>)
    requires Run(h) && AtRest(StateAfter(h))
    ensures Io(h) <==> LeftAsserted(h, |h|)
  {
    hide LeftAsserted;
    if h == [] {
      assert LeftAsserted(h, 0) by { PowerUp(h); }
    } else {
      var last := |h| - 1;
      var t := h[last];
      LeftAssertedStep(h);
      assert StepOk(h, last);
      if Idles(t) && !t.reset {
        IdleStep(t, Io(h[..last]));
        RunPrefix(h, last);
        IoAtRest(h[..last]);
      } else if !t.reset {
        ActiveStep(t, Io(h[..last]));
      }
    }
  }

  lemma PowerUp(h: seq<Step>)
    ensures LeftAsserted(h, 0)
  {
  }

  /** Of the steps that set the signals and lead to rest, all but that of a command block leave
      I/O asserted. */
  lemma ActiveStep(t: Step, io: bool)
    requires LegalStep(t, io) && !Idles(t) && !t.reset && AtRest(t.post)
    ensures IoAfter(t.events, io) <==> t.pre.Message? || t.pre.Inquiry?
  {
    hide Samples, Decode, Concludes, Reportable;
    IoAfterPhase(t.events, io);
  }

  /** Who is on the data bus when. Selection samples it with I/O asserted exactly before the first
      command and after one that has run to its end; INQUIRY whenever it transfers anything; no
      other step ever drives it with I/O released or samples it with I/O asserted. */
  lemma BusDiscipline(h: seq<Step>, i: nat)
    requires Run(h) && i < |h|
    ensures Selects(h[i]) ==> (!WellDriven(h[i].events) <==> LeftAsserted(h, i))
    ensures h[i].pre.Inquiry? ==> (!WellDriven(h[i].events) <==> |h[i].events| >= 2)
    ensures !Selects(h[i]) && !h[i].pre.Inquiry? ==> WellDriven(h[i].events)
  {
    hide LeftAsserted, Decode, Concludes, Reportable;
    assert StepOk(h, i);
    var events := h[i].events;
    if Selects(h[i]) {
      RunPrefix(h, i);
      IoAtRest(h[..i]);
      LeftInPrefix(h, i);
      assert events[0] in events;
    } else if h[i].pre.Inquiry? && |events| >= 2 {
      assert events[1] in events;
    }
  }

  lemma LeftInPrefix(h: seq<Step>, i: nat)
    requires i <= |h|
    ensures LeftAsserted(h[..i], i) <==> LeftAsserted(h, i)
  {
    hide LeftByCommand;
    FreshInPrefix(h, i);
    LeftByInPrefix(h, i);
  }

  lemma FreshInPrefix(h: seq<Step>, i: nat)
    requires i <= |h|
    ensures Fresh(h[..i], i) <==> Fresh(h, i)
  {
    assert forall j :: 0 <= j < i ==> h[..i][j] == h[j];
  }

  lemma LeftByInPrefix(h: seq<Step>, i: nat)
    requires i <= |h|
    ensures LeftByCommand(h[..i], i) <==> LeftByCommand(h, i)
  {
    if LeftByCommand(h[..i], i) {
      var k: nat :| LeftBy(h[..i], i, k) && (h[k].pre.Message? || h[k].pre.Inquiry?);
      assert LeftBy(h, i, k);
    }
    if LeftByCommand(h, i) {
      var k: nat :| LeftBy(h, i, k) && (h[k].pre.Message? || h[k].pre.Inquiry?);
      assert LeftBy(h[..i], i, k);
    }
  }

  // ---- Being selected -------------------------------------------------------------------

  /** What a step at bus free and one at bus busy make of SEL and BSY: each line is looked at in
      turn, and they alone decide. */
  lemma LinesDecide(h: seq<Step>, i: nat)
    requires Run(h) && i < |h|
    ensures h[i].pre.BusFree? ==>
              && |h[i].polls| >= 1 && h[i].polls[0].Sel?
              && (h[i].polls[0].active ==> h[i].post.Select?)
              && (!h[i].polls[0].active ==>
                    |h[i].polls| == 2 && h[i].polls[1].Bsy?
                    && h[i].post == if h[i].polls[1].active then BusBusy else BusFree)
    ensures h[i].pre.BusBusy? ==>
              && |h[i].polls| >= 1 && h[i].polls[0].Sel?
              && (h[i].polls[0].active <==> Selects(h[i]))
              && (!h[i].polls[0].active ==>
                    |h[i].polls| == 2 && h[i].polls[1].Bsy?
                    && h[i].post == if h[i].polls[1].active then BusBusy else BusFree)
    ensures h[i].pre.Select? ==> Selects(h[i])
    ensures Selects(h[i]) ==>
              && |h[i].events| == 1 && h[i].events[0].Sample?
              && h[i].post == if OwnId(h[i].events[0].value) then Command else BusBusy
  {
    hide Decode, Concludes, Reportable, WholeBlock, DataPhase, InquiryEvents;
    assert StepOk(h, i);
  }

  /** The step finds SEL active at once. */
  predicate FindsSel(t: Step)
  {
    t.polls != [] && t.polls[0] == Sel(true)
  }

  /** A host that asserts SEL while the bus is free, with the ID of the target on the data bus, gets
      a target that waits for its command two rounds later; so does one that waits for BSY to be
      looked at in between. Nothing else leads from bus free to the command phase in two rounds. */
  lemma SelectionIsAnswered(h: seq<Step>, i: nat)
    requires Run(h) && i + 2 < |h| && h[i].pre.BusFree? && !h[i].reset && !h[i + 1].reset
    ensures FindsSel(h[i]) ==> h[i + 1].pre.Select? && |h[i + 1].events| == 1 && h[i + 1].events[0].Sample?
    ensures h[i + 2].pre.Command? <==>
              && (FindsSel(h[i]) || (h[i].polls == [Sel(false), Bsy(true)] && FindsSel(h[i + 1])))
              && |h[i + 1].events| == 1 && h[i + 1].events[0].Sample? && OwnId(h[i + 1].events[0].value)
  {
    hide Run, OwnId;
    LinesDecide(h, i);
    LinesDecide(h, i + 1);
    Chain(h, i);
    Chain(h, i + 1);
  }

  /** Once the target has answered it keeps BSY asserted, through the command and after it, until a
      reset: nothing in the loop releases it. */
  lemma {:induction false} BusyStays(h: seq<Step>, k: nat)
    requires k < |h| && Answers(h[k]) && forall j :: k <= j < |h| ==> !h[j].reset
    ensures Busy(h)
    decreases |h|
  {
    var last := |h| - 1;
    if k < last {
      BusyStays(h[..last], k);
    }
  }

  /** So it takes the bus for busy from then on: between commands it leaves bus free with its first
      look at the lines, and bus busy only to be selected again. */
  lemma NeverFreeAgain(h: seq<Step>, k: nat, i: nat)
    requires Run(h) && k < i < |h| && Answers(h[k]) && forall j :: k <= j < i ==> !h[j].reset
    ensures h[i].pre.BusFree? ==> !h[i].post.BusFree?
    ensures h[i].pre.BusBusy? ==> !h[i].post.BusFree?
  {
    hide Decode, Concludes, Reportable, WholeBlock, DataPhase, InquiryEvents, Selection;
    assert StepOk(h, i);
    BusyStays(h[..i], k);
    LinesDecide(h, i);
  }

  // ---- Two runs -------------------------------------------------------------------------

  function Between(pre: ScsiState, post: ScsiState, events: seq<BusEvent>, cdb: seq<byte>): Step
  {
    Step(pre, post, events, [], cdb, 0, false, 0, NoAction, 0, 0, false, false, false)
  }

  /** SEL found active at bus free, and then the own ID on the bus, with I/O as given. */
  const SEL_FOUND: Step := Between(BusFree, Select, [], []).(polls := [Sel(true)])

  /** The same out of bus busy, where a target that has carried out a command waits. */
  const SELECTED_AGAIN: Step := Between(BusBusy, Command, [Sample(true, 2)], []).(polls := [Sel(true), Sel(false)])

  function Answer(io: bool): Step
  {
    Between(Select, Command, [Sample(io, 2)], []).(polls := [Sel(false)])
  }

  /** From power-up to a command about to be carried out. */
  function Prelude(cdb: seq<byte>): seq<Step>
    requires |cdb| >= 1
  {
    [SEL_FOUND, Answer(true),
     Between(Command, Decode(cdb), [COMMAND] + Samples(false, cdb), cdb)]
  }

  lemma Grown(h: seq<Step>, t: Step)
    requires Run(h) && t.pre == StateAfter(h) && LegalStep(t, Io(h))
    requires FindsOwnBusy(t, Busy(h)) && Obeys(t, Received(h))
    requires !t.pre.RequestSense?
    requires (t.pre.Status? || t.pre.Message?) && h != [] ==> t.status == h[|h| - 1].status
    ensures Run(h + [t]) && StateAfter(h + [t]) == Next(t)
    ensures Io(h + [t]) == (!t.reset && IoAfter(t.events, Io(h)))
    ensures Received(h + [t]) == if t.pre.Command? then t.cdb else Received(h)
    ensures Busy(h + [t]) <==> !t.reset && (Answers(t) || Busy(h))
  {
    StepContinues(h, t);
    RunGrows(h, t);
    Extended(h, t);
  }

  lemma PreludeRuns(cdb: seq<byte>)
    requires WholeBlock(cdb) && IsCommand(Decode(cdb))
    ensures Run(Prelude(cdb)) && StateAfter(Prelude(cdb)) == Decode(cdb)
    ensures Received(Prelude(cdb)) == cdb && !Io(Prelude(cdb))
  {
    hide Run, Decode, Received, Io;
    var p := Prelude(cdb);
    assert Run([]) && Io([]) && Received([]) == [] by { NoSteps(); }
    Grown([], p[0]);
    IdleStep(p[0], true);
    assert [] + [p[0]] == [p[0]];
    Grown([p[0]], p[1]);
    IdleStep(p[1], true);
    assert [p[0]] + [p[1]] == [p[0], p[1]];
    Grown([p[0], p[1]], p[2]);
    IoAfterPhase(p[2].events, true);
    assert [p[0], p[1]] + [p[2]] == p;
  }

  lemma NoSteps()
    ensures Run([]) && Io([]) && Received([]) == []
  {
  }

  /** One such run: power-up and selection, TEST UNIT READY, and the selection that comes three
      idle rounds after it. */
  lemma SelectionSamplesAsserted() returns (h: seq<Step>)
    ensures Run(h) && |h| == 10 && Selects(h[9]) && !WellDriven(h[9].events)
    ensures h[0].pre.BusFree? && Selects(h[1]) && !WellDriven(h[1].events)
    ensures h[5].pre.Message? && h[6].pre.BusFree? && h[7].pre.BusBusy? && h[8].pre.BusBusy? && h[9].pre.BusBusy?
  {
    hide Run, Received, Io, StateAfter, WellDriven, Selects;
    h := TestAfterPowerUp();
    var busy := [Sel(false), Bsy(true)];
    h := Then(h, Between(BusFree, BusBusy, [], []).(polls := busy));
    h := Then(h, Between(BusBusy, BusBusy, [], []).(polls := busy));
    h := Then(h, Between(BusBusy, BusBusy, [], []).(polls := busy));
    h := Then(h, SELECTED_AGAIN);
    AssertedSample();
  }

  /** Power-up, selection, and a TEST UNIT READY that leaves I/O asserted. */
  lemma TestAfterPowerUp() returns (h: seq<Step>)
    ensures Run(h) && |h| == 6 && StateAfter(h) == BusFree && Io(h)
    ensures h[0].pre.BusFree? && Selects(h[1]) && !WellDriven(h[1].events) && h[5].pre.Message?
  {
    hide Run, Received, Io, Prelude;
    var cdb := [0, 0, 0, 0, 0, 0];
    PreludeRuns(cdb);
    h := Prelude(cdb);
    PreludeLength(cdb);
    hide WellDriven, Selects;
    h := Then(h, Between(TestUnitReady, Status, [], cdb + cdb));
    h := Then(h, Between(Status, Message, [STATUS, Drive(true, 0)], []));
    IoAfterPhase([MESSAGE_IN, Drive(true, 0)], true);
    h := Then(h, Between(Message, BusFree, [MESSAGE_IN, Drive(true, 0)], []));
  }

  lemma AssertedSample()
    ensures Selects(Answer(true)) && !WellDriven(Answer(true).events)
    ensures Selects(SELECTED_AGAIN) && !WellDriven(SELECTED_AGAIN.events)
  {
    assert SELECTED_AGAIN.events[0] in SELECTED_AGAIN.events;
    assert Answer(true).events[0] in Answer(true).events;
  }

  lemma PreludeLength(cdb: seq<byte>)
    requires |cdb| >= 1
    ensures var p := Prelude(cdb);
            && |p| == 3 && p[0].pre.BusFree? && p[1].pre.Select? && p[2].pre.Command? && p[2].status == 0
            && Selects(p[1]) && !WellDriven(p[1].events)
  {
    assert Prelude(cdb)[1].events[0] in Prelude(cdb)[1].events;
  }

  lemma Then(h: seq<Step>, t: Step) returns (longer: seq<Step>)
    requires Run(h) && t.pre == StateAfter(h) && LegalStep(t, Io(h))
    requires FindsOwnBusy(t, Busy(h)) && Obeys(t, Received(h))
    requires !t.pre.RequestSense? && !t.reset && !t.pre.Command?
    requires (t.pre.Status? || t.pre.Message?) && h != [] ==> t.status == h[|h| - 1].status
    ensures longer == h + [t] && Run(longer) && StateAfter(longer) == t.post
    ensures Io(longer) == IoAfter(t.events, Io(h)) && Received(longer) == Received(h)
  {
    Grown(h, t);
    longer := h + [t];
  }

  // ---- Sense data over runs -----------------------------------------------------------

  /** The step sets or clears the sense data of the LUN. */
  predicate Touches(t: Step, lun: nat)
  {
    t.reset || (!t.action.NoAction? && t.action.lun == lun)
  }

  /** Steps that do not touch a LUN's sense data, whatever they do to other LUNs, leave it as
      it is. */
  lemma {:induction false} SenseUntouched(h: seq<Step>, k: nat, lun: nat)
    requires k <= |h|
    requires forall j :: k <= j < |h| ==> !Touches(h[j], lun)
    ensures Replay(h, lun) == Replay(h[..k], lun)
    decreases |h|
  {
    if k < |h| {
      var last := |h| - 1;
      assert !Touches(h[last], lun);
      SenseUntouched(h[..last], k, lun);
      assert h[..last][..k] == h[..k];
    } else {
      assert h[..k] == h;
    }
  }

  /** Step j does not reset, and does nothing to the sense data of the LUN if it carries out a
      command the host has sent there. What commands to other LUNs do is left open. */
  predicate Undisturbed(h: seq<Step>, j: nat, lun: nat)
    requires j < |h|
  {
    !h[j].reset && (Executing(h[j].pre) && SentTo(h, j) == lun ==> h[j].action.NoAction?)
  }

  lemma UndisturbedIsUntouched(h: seq<Step>, j: nat, lun: nat)
    requires Run(h) && j < |h| && Undisturbed(h, j, lun)
    ensures !Touches(h[j], lun)
  {
    assert StepOk(h, j);
    if Executing(h[j].pre) {
      ExecutesReceived(h, j);
    }
  }

  lemma SenseUndisturbed(h: seq<Step>, k: nat, i: nat, lun: nat)
    requires Run(h) && k <= i <= |h|
    requires forall j: nat :: k <= j < i ==> Undisturbed(h, j, lun)
    ensures Replay(h[..i], lun) == Replay(h[..k], lun)
  {
    forall j: nat | k <= j < i
      ensures !Touches(h[..i][j], lun)
    {
      assert Undisturbed(h, j, lun);
      UndisturbedIsUntouched(h, j, lun);
    }
    SenseUntouched(h[..i], k, lun);
    assert h[..i][..k] == h[..k];
  }

  /** Sense data is per LUN: as long as no reset comes, whatever the host sends to other LUNs,
      failing commands and REQUEST SENSE included, does not change it. */
  lemma OtherLunsKeepOut(h: seq<Step>, k: nat, i: nat, lun: nat)
    requires Run(h) && k <= i <= |h|
    requires forall j: nat :: k <= j < i ==> !h[j].reset && (Executing(h[j].pre) ==> SentTo(h, j) != lun)
    ensures Replay(h[..i], lun) == Replay(h[..k], lun)
  {
    forall j: nat | k <= j < i
      ensures Undisturbed(h, j, lun)
    {
      assert !h[j].reset;
    }
    SenseUndisturbed(h, k, i, lun);
  }

  /** REQUEST SENSE sends the host the error the last failing command sent to that LUN has
      recorded, and never four zeros for it. */
  lemma FailureIsReported(h: seq<Step>, k: nat, i: nat)
    requires Run(h) && k < i < |h|
    requires IsCommand(h[k].pre) && h[k].status != 0 && !h[k].reset
    requires !(h[k].pre.Verify? && h[k].stopped)
    requires h[i].pre.RequestSense? && SentTo(h, i) == SentTo(h, k)
    requires forall j: nat :: k < j < i ==> Undisturbed(h, j, SentTo(h, k))
    ensures h[k].action.Recorded? && h[k].action.lun == SentTo(h, k)
    ensures h[i].events == [DATA_IN] + Drives(true, EncodeSense(h[k].action.sense))
    ensures EncodeSense(h[k].action.sense) != [0, 0, 0, 0]
  {
    hide SentTo, Undisturbed, Block;
    assert StepOk(h, k) && StepOk(h, i);
    ExecutesReceived(h, k);
    ExecutesReceived(h, i);
    Chain(h, k);
    SenseUndisturbed(h, k + 1, i, SentTo(h, k));
    assert h[..k + 1][k] == h[k];
  }

  /** An error is reported once: with nothing recorded since the last REQUEST SENSE sent to the
      LUN or the last reset, the host gets four zeros. */
  lemma ReportedOnce(h: seq<Step>, k: nat, i: nat)
    requires Run(h) && k < i < |h|
    requires h[i].pre.RequestSense?
    requires h[k].reset || (h[k].pre.RequestSense? && SentTo(h, k) == SentTo(h, i))
    requires forall j: nat :: k < j < i ==> Undisturbed(h, j, SentTo(h, i))
    ensures h[i].events == [DATA_IN] + Drives(true, [0, 0, 0, 0])
  {
    hide SentTo, Undisturbed, Block;
    assert StepOk(h, k) && StepOk(h, i);
    ExecutesReceived(h, i);
    if h[k].pre.RequestSense? {
      ExecutesReceived(h, k);
    }
    SenseUndisturbed(h, k + 1, i, SentTo(h, i));
    assert h[..k + 1][k] == h[k];
  }

  /** And so it is with nothing recorded at all. */
  lemma NothingRecorded(h: seq<Step>, i: nat)
    requires Run(h) && i < |h| && h[i].pre.RequestSense?
    requires forall j: nat :: 0 <= j < i ==> Undisturbed(h, j, SentTo(h, i))
    ensures h[i].events == [DATA_IN] + Drives(true, [0, 0, 0, 0])
  {
    hide SentTo, Undisturbed, Block;
    assert StepOk(h, i);
    ExecutesReceived(h, i);
    SenseUndisturbed(h, 0, i, SentTo(h, i));
    assert h[..0] == [];
  }
}
