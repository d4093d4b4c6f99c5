/** The main loop of main.c, run for as long as one likes. */
module MainLoop {
  import opened Bytes
  import Fat
  import opened Filesystem
  import opened HostAdapters
  import opened Protocol
  import opened Storage
  import opened Scsi

  /** All there is to see of the firmware between two rounds. */
  datatype View = View(state: ScsiState, io: bool, busy: bool, bus: seq<BusEvent>, polls: seq<Poll>,
                       sense: seq<SenseData>, status: byte, data: seq<byte>, card: Media)

  // ---- One round, on views --------------------------------------------------------------

  /** The step starts from what there is to see: it carries out the block held, and what it says
      about status, sense data and bus is so. */
  ghost predicate Starts(t: Step, a: View, b: View)
  {
    && t.pre == a.state && b.status == t.status
    && LegalStep(t, a.io) && FindsOwnBusy(t, a.busy)
    && b.bus == a.bus + t.events && b.polls == a.polls + t.polls
    && |a.sense| == LUNS && (t.action.NoAction? || t.action.lun < LUNS)
    && (Executing(t.pre) ==> |t.cdb| == 12 && t.cdb == a.data && t.lun == LunOf(t.cdb))
    && (if t.pre.Command? then t.cdb <= b.data else b.data == a.data)
    && (t.pre.Status? || t.pre.Message? ==> t.status == a.status)
    && (t.pre.RequestSense? ==>
          && t.lun < LUNS && t.action == Reported(t.lun) && t.status == 0
          && t.events == [DATA_IN] + Drives(true, EncodeSense(a.sense[t.lun])))
  }

  /** The step ends in what there is to see afterwards: a reset clears the sense data, releases
      I/O and BSY and frees the bus. */
  ghost predicate Ends(t: Step, a: View, b: View)
    requires |a.sense| == LUNS && (t.action.NoAction? || t.action.lun < LUNS)
  {
    && b.state == Next(t)
    && b.io == (!t.reset && IoAfter(t.events, a.io))
    && b.busy == (!t.reset && (Answers(t) || a.busy))
    && b.sense == if t.reset then seq(LUNS, _ => NO_SENSE) else Noted(a.sense, t.action)
  }

  ghost predicate Follows(t: Step, a: View, b: View, dir: byte)
  {
    Starts(t, a, b) && Ends(t, a, b) && RoundOk(t, a.card, b.card, dir)
  }

  // ---- Histories ------------------------------------------------------------------------

  /** The sense data of every LUN is what the history says. */
  ghost predicate SenseAccounted(h: seq<Step>, sense: seq<SenseData>)
  {
    |sense| == LUNS && forall lun :: 0 <= lun < LUNS ==> sense[lun] == Replay(h, lun)
  }

  /** The status byte is the one the last step has left. */
  predicate StatusAccounted(h: seq<Step>, status: byte)
  {
    h != [] ==> status == h[|h| - 1].status
  }

  ghost predicate MediaAccounted(h: seq<Step>, media: seq<Media>, card: Media, dir: byte)
  {
    Documented(h, media, dir) && media[|h|] == card
  }

  /** The history is a run as Protocol has it, and accounts for all there is to see. */
  ghost predicate Accounts(h: seq<Step>, media: seq<Media>, v: View, dir: byte)
  {
    && Run(h)
    && v.state == StateAfter(h) && v.io == Io(h) && v.busy == Busy(h)
    && v.bus == Traffic(h, 0, |h|) && v.polls == Polled(h)
    && SenseAccounted(h, v.sense) && StatusAccounted(h, v.status)
    && MediaAccounted(h, media, v.card, dir)
    && Received(h) <= v.data
  }

  lemma RunGoesOn(h: seq<Step>, t: Step, a: View, b: View)
    requires Run(h) && a.state == StateAfter(h) && a.io == Io(h) && a.busy == Busy(h) && Received(h) <= a.data
    requires SenseAccounted(h, a.sense) && StatusAccounted(h, a.status) && Starts(t, a, b)
    ensures Run(h + [t])
  {
    hide Run, LegalStep, EncodeSense, Drives, StateAfter, Io, Busy, Received, Replay;
    StepContinues(h, t);
    RunGrows(h, t);
  }

  lemma SenseGoesOn(h: seq<Step>, t: Step, a: View, b: View)
    requires SenseAccounted(h, a.sense) && Starts(t, a, b) && Ends(t, a, b)
    ensures SenseAccounted(h + [t], b.sense)
  {
    hide Replay, LegalStep, IoAfter, EncodeSense, Drives;
    forall lun | 0 <= lun < LUNS
      ensures b.sense[lun] == Replay(h + [t], lun)
    {
      SenseExtended(h, t, a.sense, lun);
    }
  }

  lemma SignalsGoOn(h: seq<Step>, t: Step, a: View, b: View)
    requires a.io == Io(h) && a.busy == Busy(h) && Received(h) <= a.data
    requires a.bus == Traffic(h, 0, |h|) && a.polls == Polled(h)
    requires Starts(t, a, b) && Ends(t, a, b)
    ensures b.state == StateAfter(h + [t]) && b.io == Io(h + [t]) && b.busy == Busy(h + [t])
    ensures b.bus == Traffic(h + [t], 0, |h + [t]|) && b.polls == Polled(h + [t])
    ensures Received(h + [t]) <= b.data && StatusAccounted(h + [t], b.status)
  {
    hide LegalStep, IoAfter, EncodeSense, Drives, StateAfter, Io, Busy, Answers, Traffic, Polled, Received, Noted;
    Extended(h, t);
  }

  lemma MediaGoOn(h: seq<Step>, media: seq<Media>, t: Step, a: View, b: View, dir: byte)
    requires MediaAccounted(h, media, a.card, dir) && RoundOk(t, a.card, b.card, dir)
    ensures MediaAccounted(h + [t], media + [b.card], b.card, dir)
  {
    hide RoundOk;
    DocumentedGrows(h, media, dir, t, b.card);
  }

  /** One more round. */
  lemma AccountsGrow(h: seq<Step>, media: seq<Media>, t: Step, a: View, b: View, dir: byte)
    requires Accounts(h, media, a, dir) && Follows(t, a, b, dir)
    ensures Accounts(h + [t], media + [b.card], b, dir)
  {
    hide Run, StateAfter, Io, Busy, Traffic, Polled, SenseAccounted, StatusAccounted, MediaAccounted, Received, RoundOk,
         Starts, Ends;
    RunGoesOn(h, t, a, b);
    SenseGoesOn(h, t, a, b);
    SignalsGoOn(h, t, a, b);
    MediaGoOn(h, media, t, a, b, dir);
  }

  lemma NothingYet(v: View, dir: byte)
    requires v.state.BusFree? && v.io && !v.busy && v.bus == [] && v.polls == [] && |v.sense| == LUNS
    requires forall lun :: 0 <= lun < LUNS ==> v.sense[lun] == NO_SENSE
    ensures Accounts([], [v.card], v, dir)
  {
  }

  /** The flag found set after a step means that the step counts as one that resets. */
  lemma FlaggedStarts(t: Step, a: View, b: View)
    requires Starts(t, a, b)
    ensures Starts(t.(disturbed := true, reset := true), a, b)
  {
    hide LegalStep, EncodeSense, Drives;
    ResetIsLegal(t, a.io);
  }

  lemma FaultedStarts(t: Step, a: View, b: View)
    requires Starts(t, a, b)
    ensures Starts(t.(faulted := true), a, b)
  {
    hide LegalStep, EncodeSense, Drives;
    FaultIsLegal(t, a.io);
  }

  class Firmware {
    const target: Target
    ghost var history: seq<Step>
    /** What the card held before each step, and holds now. */
    ghost var media: seq<Media>

    ghost function Seen(): View
      reads target, target.host, target.fs, target.fs.vol
    {
      View(target.state, target.host.io, target.host.busy, target.host.bus, target.host.polls, target.sense,
           target.status, target.data, target.OnCard())
    }

    /** The history accounts for the state, the sense data, the status byte, the I/O signal, the
        traffic on the bus, and the images on the card. No file is open but one that f_close
        could not close, and every started LUN is usable. */
    ghost predicate Valid()
      reads this, target, target.host, target.fs, target.fs.vol
    {
      target.Able() && !target.host.nrstFlag && Accounts(history, media, Seen(), target.fs.lunDirectory)
    }

    constructor (card: Fat.Volume, bufferLength: nat)
      requires card.Valid() && card.Released() && bufferLength >= 1
      modifies card
      ensures Valid() && history == [] && target.fs.vol == card
      ensures fresh(target) && fresh(target.fs) && fresh(target.host)
      ensures fresh(target.buffer) && fresh(target.fs.sectorBuffer)
    {
      hide Accounts;
      target := new Target(card, bufferLength);
      history := [];
      new;
      media := [target.OnCard()];
      NothingYet(Seen(), target.fs.lunDirectory);
    }

    /** One round: a step of the emulation, and the reset if the host has signalled one. */
    method Iterate()
      requires Valid()
      modifies this, target, target.buffer, target.host, target.fs, target.fs.vol, target.fs.sectorBuffer
      ensures Valid()
      ensures |history| == |old(history)| + 1 && old(history) <= history && old(media) <= media
    {
      hide Target.Able, Accounts, Follows;
      ghost var before := Seen();
      ghost var t := Round();
      AccountsGrow(history, media, t, before, Seen(), target.fs.lunDirectory);
      history, media := history + [t], media + [target.OnCard()];
    }

    method Round() returns (ghost t: Step)
      requires target.Able() && !target.host.nrstFlag
      modifies target, target.buffer, target.host, target.fs, target.fs.vol, target.fs.sectorBuffer
      ensures target.Able() && !target.host.nrstFlag
      ensures target.fs.lunDirectory == old(target.fs.lunDirectory)
      ensures t.faulted <==> target.fs.vol.faults > old(target.fs.vol.faults)
      ensures t.disturbed <==> target.host.disturbed > old(target.host.disturbed)
      ensures Follows(t, old(Seen()), Seen(), target.fs.lunDirectory)
    {
      hide FileSystem.Ready, IoAfter, LegalStep, Noted, EncodeSense, Drives, RoundOk, Target.OnCard;
      ghost var a := Seen();
      t := Emulate();
      if target.host.nrstFlag {
        ghost var b, faults := Seen(), target.fs.vol.faults;
        HandleReset();
        ghost var faulted := t.faulted || target.fs.vol.faults > faults;
        RoundThenReset(t, faulted, t.disturbed, a.card, b.card, target.OnCard(), target.fs.lunDirectory);
        if faulted {
          FaultedStarts(t, a, b);
        }
        t := t.(faulted := faulted);
      }
    }

    /** A step of the emulation, and an interrupt that may come after it. The step counts as one
        that resets if the flag is set then. */
    method Emulate() returns (ghost t: Step)
      requires target.Able() && !target.host.nrstFlag
      modifies target, target.buffer, target.host, target.fs, target.fs.vol, target.fs.sectorBuffer
      ensures target.Able() && t.reset == target.host.nrstFlag
      ensures target.fs.lunDirectory == old(target.fs.lunDirectory)
      ensures t.faulted <==> target.fs.vol.faults > old(target.fs.vol.faults)
      ensures target.fs.vol.faults >= old(target.fs.vol.faults)
      ensures t.disturbed <==> target.host.disturbed > old(target.host.disturbed)
      ensures Starts(t, old(Seen()), Seen()) && target.state == t.post
      ensures target.host.io == IoAfter(t.events, old(target.host.io))
      ensures !t.reset ==> (target.host.busy <==> Answers(t) || old(target.host.busy))
      ensures target.sense == Noted(old(target.sense), t.action)
      ensures RoundOk(t, old(target.OnCard()), target.OnCard(), target.fs.lunDirectory)
    {
      hide FileSystem.Ready, IoAfter, LegalStep, Noted, EncodeSense, Drives, RoundOk,
           FileSystem.OnlyLunChanged, FileSystem.ImagesKept, FileSystem.DescriptorsKept, Target.Reads, Target.Writes,
           Target.Served, Target.Selects, Target.Senses, Target.OnCard;
      ghost var before := Seen();
      t := target.ProcessEmulation();
      target.StepRound(t);
      assert Starts(t, before, Seen());
      hide Starts;
      ghost var disturbed := target.host.disturbed;
      target.host.Interrupts();
      if target.host.disturbed > disturbed {
        FlaggedStarts(t, before, Seen());
        RoundThenReset(t, t.faulted, true, before.card, target.OnCard(), target.OnCard(), target.fs.lunDirectory);
        t := t.(disturbed := true, reset := true);
      }
    }

    /** What the main loop does when the host has signalled reset. */
    method HandleReset()
      requires target.Able()
      modifies target`sense, target`state, target.host, target.fs, target.fs.vol, target.fs.sectorBuffer
      ensures target.Able() && target.fs.lunDirectory == old(target.fs.lunDirectory)
      ensures var before, after := old(target.OnCard()).files, target.OnCard().files;
              && (forall n :: n in before && n.kind.Dat? ==> n in after && after[n] == before[n])
              && (target.fs.NoFault() ==>
                    forall n :: n in before && n.kind.Dsc? ==> n in after && after[n] == before[n])
      ensures target.fs.vol.faults >= old(target.fs.vol.faults)
      ensures target.fs.NoFault() ==> target.fs.mounted
      ensures target.fs.NoFault() && old(target.fs.mounted) ==> target.fs.started == old(target.fs.started)
      ensures target.state.BusFree? && target.sense == seq(LUNS, _ => NO_SENSE)
      ensures !target.host.io && !target.host.busy && !target.host.nrstFlag
      ensures target.host.bus == old(target.host.bus) && target.host.polls == old(target.host.polls)
      ensures target.host.disturbed == old(target.host.disturbed)
    {
      hide FileSystem.Ready, HostAdapter.Valid;
      target.host.Reset();
      ghost var missing := target.fs.Reset();
      target.Reset();
      target.host.nrstFlag := false;
    }

    /** Any number of rounds, from any state a run can reach. */
    method RunFor(rounds: nat)
      requires Valid()
      modifies this, target, target.buffer, target.host, target.fs, target.fs.vol, target.fs.sectorBuffer
      ensures Valid()
      ensures |history| == |old(history)| + rounds && old(history) <= history && old(media) <= media
    {
      hide Valid;
      var round := 0;
      while round < rounds
        invariant 0 <= round <= rounds
        invariant Valid()
        invariant |history| == |old(history)| + round && old(history) <= history && old(media) <= media
      {
        Iterate();
        round := round + 1;
      }
    }
  }
}
