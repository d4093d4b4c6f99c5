# A verified model of the LCSCSI firmware

LCSCSI-STM32 is firmware that makes an STM32 board with an SD card look like a SCSI hard drive to an
old computer. This project models its main parts in Dafny and proves what they promise. It has three
parts.

**The SCSI target.** `Scsi.dfy` is the state machine of `scsi.c` with all its command handlers,
`Filesystem.dfy` the LUN layer of `filesystem.c`, `HostAdapter.dfy` the byte transfers of
`hostadapter.c`, `MainLoop.dfy` the loop of `main.c`. `Fat.dfy` says what is taken for granted about
FatFs. `Geometry.dfy` is the arithmetic of descriptors and block addresses, `Bytes.dfy` and `Arithmetic.dfy` what
all modules share. `Protocol.dfy` and
`Storage.dfy` say what holds over whole runs: every round of the main loop adds a step to a history,
`MainLoop.Firmware.Valid` ties that history to everything there is to see, and the theorems of the two
modules are about all such histories.

**In-place data algorithms.** `CyclicBuffer.dfy`, `FileShift.dfy` (truncating the beginning of a file)
and `DirectoryWalk.dfy` (the recursive search on one shared path buffer).

**Raster code and tick-driven machines.** `FrameBuffer.dfy` (fills against the pixel map under
rotation), `Curves.dfy` (lines and circles), `SoftTimers.dfy` and `Button.dfy`.

Everything the source does step by step is a class or method with loops here, proved against functions
or relations on values. What comes from outside is chosen arbitrarily: the reset line may interrupt at
any point where it is not masked, SEL, BSY, ACK and the data bus read anything, and every FatFs call may
fail. Check with `dafny verify dfyconfig.toml`.

## Assumptions

- **One block size.** The source moves blocks of 256 bytes over the bus, in a buffer of 256 bytes, and
  sectors of 512 bytes to the card. The model takes one constant for both, `SECTOR_SIZE` = 512.
- **FatFs.** `f_read`, `f_write` and `f_lseek` fail on a file object that is not open, a failing
  `f_write` has written nothing, `f_write` and `f_lseek` stop short without an error when the file cannot
  grow any further (`room` in `Fat.dfy`), `f_expand` refuses a size of zero. When the `f_sync` inside
  `f_close` fails, the file object stays as it is, so the handle stays open. Every call may fail for reasons
  of its own, and `faults` in `Fat.dfy` counts these failures: a bad card, or no space for a directory
  entry or for `f_expand`. A file that is not there is none of them. A call that does not fail does what it
  is for, which is what lets the project say when a command must succeed.
- **The host** is counted in the same way: `disturbed` in `HostAdapter.dfy` says how often it has pulled the
  reset line or left a byte of a block unacknowledged. Nothing else sets the reset flag but a SEL held for
  more than 250 ticks after selection. SEL and BSY may read anything at every look, but for a BSY the target
  itself asserts, which it finds active.
- **Waits.** The waits for ACK in single-byte transfers and for SEL end: by an acknowledge, by a reset,
  or by the timeout the source has. Polls of SEL within one tick count as one.
- **The card** is changed by the firmware only.
- **Pins.** `hostadapter.c:55` makes REQ, BSY, I/O and C/D outputs and not MSG. The MSG of a phase is what
  the firmware writes; nothing is said about that line being driven. The output register is zero at
  power-up and the signals are active low.

## Where the source falls short of what one would expect

The model follows the code, and says exactly when it does what it should.

- At power-up MSG, BSY, REQ and C/D are released and I/O is not (`hostadapter.c:64`), and after a command
  that has run to its end the signals stay as they were. So the first selection, and the next one after a
  command, however long after, sample the data bus with I/O asserted, unless a reset has come in between.
  Selection does so in no other case but after an INQUIRY that was on the bus (`Protocol.BusDiscipline`,
  `Protocol.SelectionSamplesAsserted`).
- Once it has answered a selection the target keeps BSY asserted, through the command and after it, until a
  reset, and so takes the bus for busy from then on (`Protocol.BusyStays`, `Protocol.NeverFreeAgain`).
- A file handle stays open after a command exactly if the last `f_close` failed (`Released` in
  `Fat.dfy`, part of `Valid` in `MainLoop.dfy`). No open is ever refused for it.
- VERIFY on a stopped LUN fails without recording an error; every other failing command but INQUIRY
  records one (`Storage.SilentFailures`).
- FORMAT reports good status also when the new LUN could not be started; the LUN is started then exactly
  if that start has worked (`Scsi.Target.CommandFormat`).
- Of the address of an error REQUEST SENSE sends 21 bits, and VERIFY records 32
  (`Protocol.SenseDecodes`).
- INQUIRY sets no status, asserts I/O and then runs the transfer from the host, and with EVPD set
  returns no state.
- A failing `f_read` or `f_write` of a descriptor goes unnoticed, because the test for it also asks for
  a full count: success means that `f_open` has worked and nothing else
  (`Filesystem.FileSystem.ReadLunDescriptor`, `Filesystem.FileSystem.WriteLunDescriptor`). Without such a
  failure MODE SELECT stores what fits on the card, and MODE SENSE sends it back
  (`Storage.SelectedIsSensed`).
- Opening an image for writing succeeds when `f_open` fails; the first block then fails
  (`Filesystem.FileSystem.OpenLunForWrite`).
- On a full volume WRITE(6) reports good status for blocks that are not in the image. What fits in what
  the image had and could grow by is there, so requests inside the image are never affected
  (`Storage.WriteIsExact`, `Storage.WriteInsideImage`, `Storage.FullVolumeLosesData`).
- READ(6) past the end of an image sends what happens to be in the buffer, with good status. One that
  succeeds sends the bytes of the image exactly if the blocks lie inside it (`Storage.ReadPastTheEnd`,
  `Storage.ReadIsExact`).
- A descriptor gives the size of its image back exactly when the cylinders fit 16 bits, which holds up to
  the 536870656 bytes the source names (`Geometry.DescriptorRoundTrip`).
- `TM_FATFS_TruncateBeginning` returns success when `f_truncate` has failed
  (`FileShift.TruncateBeginning`).
- Filled rectangles in orientation 2 are right exactly when x equals y
  (`FrameBuffers.RotatedFillMatches`).
- A line that starts left of the screen or above it is moved to the edge: a vertical line left of the
  screen and a horizontal line above it are drawn along the edge, a vertical line from above is drawn too
  long unless it reaches the lower edge, and a horizontal line that ends left of the screen wraps around
  (`FrameBuffers.VerticalLineExact`, `FrameBuffers.HorizontalLineExact`,
  `FrameBuffers.LinesOffTheScreen`). The pixels of a slanted line are horizontal lines of length 1, so a
  pixel two or more columns left of the screen paints a whole row (`FrameBuffers.PixelPaintsRow`).
- A slanted line is the line asked for exactly if its error term stays within 16 bits, a condition on the
  two distances and their greatest common divisor (`Curves.DrawLine`, `Curves.LineFits`). When the longer
  distance is 32767, the loop never ends, because its counter cannot exceed that.
- Where no coordinate leaves 16 bits, a circle is one exactly for radii up to 16556 and for 16642 and
  16643; beyond, the 16-bit decision variable goes wrong (`Curves.DrawCircle`, `Curves.IsCircle`).
- A callback that says stop ends the folder it was called in; the search goes on if anything that could be
  visited follows in the folders above (`DirectoryWalk.StopsExactly`, `DirectoryWalk.StopIsPassedOver`).
- When the path buffer runs out in a folder below the searched one, the path is not restored
  (`DirectoryWalk.PathLeft`, `DirectoryWalk.PathLeftBehind`).
- `TM_BUFFER_ReadString` leaves one cell before the closing zero unwritten when the stored bytes run out
  (`CyclicBuffers.CyclicBuffer.ReadString`).

## Model

| member | source | states |
|---|---|---|
| MainLoop.Firmware.RunFor | src/LCSCSI-STM32/main.c:79-124 | however long the firmware runs, whatever the host does on its lines and whichever FatFs calls fail: the history is a legal run in which every command is carried out on the LUN and with the block the host has sent, and it accounts for state, status, sense data, the I/O and BSY signals, bus traffic, every look at SEL and BSY, the files on the card, whether it is mounted and which LUNs are started; no file is open except one f_close could not close, no open has ever been refused as a second one, and every started LUN has its image on the mounted card |
| MainLoop.Firmware.Iterate | src/LCSCSI-STM32/main.c:79-124 | one round of the main loop keeps all of that and adds one step to the history |
| MainLoop.Firmware.Round | src/LCSCSI-STM32/main.c:79-124 | one round as a legal step from the state before, carrying out the block held in the command data block: how it changes state, status, sense data, signals and files, with and without a reset, whether a FatFs call has failed and whether the host has disturbed it |
| MainLoop.Firmware.Emulate | src/LCSCSI-STM32/main.c:83 | the same for the emulation alone, before the reset flag is looked at |
| MainLoop.Firmware.HandleReset | src/LCSCSI-STM32/main.c:107-124 | a host reset clears all sense data, turns the signals off and goes to bus free; every image is kept, and if FatFs does not fail every descriptor is, the card is mounted, and the LUNs of a mounted card stay started |
| MainLoop.Firmware.constructor | src/LCSCSI-STM32/main.c:60-77 | the firmware starts with an empty history that accounts for its state, I/O asserted included |
| Protocol.CommandRun | src/LCSCSI-STM32/scsi.c:246-379 | every command but INQUIRY goes Command, at most one Data-in or Data-out, Status, Message-in and is at bus free after at most four steps, cut short only by an unknown command or a reset; the step after Command carries out the block received, on its LUN, and the status sent is the one that step left; the data bus is driven only with I/O asserted and sampled only with I/O released |
| Protocol.ExecutesReceived | src/LCSCSI-STM32/scsi.c:476-659 | in every run a command is carried out on the LUN, and with the block, the host has sent; the block is whole and is that of the step before, unless INQUIRY has left the state to chance |
| Protocol.CommandTable | src/LCSCSI-STM32/scsi.c:553-658 | which first byte selects each command, as if-and-only-ifs; every other first byte goes to bus free |
| Protocol.SelectionIsAnswered | src/LCSCSI-STM32/scsi.c:251-280 | without a reset, SEL found at bus free leads to a sample of the data bus in the next round, and the command phase comes two rounds after bus free if and only if SEL has been found there, or BSY there and SEL in the next round, and the byte sampled has the bit of the own ID |
| Protocol.LinesDecide | src/LCSCSI-STM32/scsi.c:253-277 | from bus free the target goes to selection if and only if SEL is active, else to bus busy if and only if BSY is; from bus busy it selects if and only if SEL is active, else goes to bus free if and only if BSY is released; a selection goes to the command phase if and only if the byte sampled has the bit of the own ID |
| Protocol.BusyStays | src/LCSCSI-STM32/scsi.c:1937 | a target that has answered asserts BSY until a reset, the command being over or not |
| Protocol.NeverFreeAgain | src/LCSCSI-STM32/scsi.c:251-275 | from then on, until a reset, it never stays at bus free and leaves bus busy only to be selected |
| Protocol.BusDiscipline | src/LCSCSI-STM32/scsi.c:246-379 | a selection samples the data bus with I/O asserted if and only if the target has only idled since power-up, or the last step that set the signals ended a command or was an INQUIRY on the bus, and no reset has come since, however long the target has idled; INQUIRY does so whenever it transfers anything; no other step ever drives the bus with I/O released or samples it with I/O asserted |
| Protocol.IoAtRest | src/LCSCSI-STM32/scsi.c:246-280 | between commands I/O is asserted exactly in those cases |
| Protocol.SelectionSamplesAsserted | src/LCSCSI-STM32/scsi.c:1915-1964 | a run in which both happens: the first selection after power-up, and TEST UNIT READY, three idle rounds, selection |
| Protocol.SenseDecodes | src/LCSCSI-STM32/scsi.c:830-842 | the four sense bytes give back the valid bit, three bits of the class, four of the code, and the address exactly when it is below 2^21 |
| Protocol.FailureIsReported | src/LCSCSI-STM32/scsi.c:792-856 | REQUEST SENSE sends exactly the error the last failing command sent to the same LUN has recorded, never four zeros for it, whatever has been sent to other LUNs in between |
| Protocol.ReportedOnce | src/LCSCSI-STM32/scsi.c:844-849 | an error is reported once: after a REQUEST SENSE sent to the LUN or a reset, and until something is recorded again, the host gets four zeros |
| Protocol.NothingRecorded | src/LCSCSI-STM32/scsi.c:821-829 | with nothing recorded since power-up the host gets four zeros |
| Protocol.OtherLunsKeepOut | src/LCSCSI-STM32/scsi.c:29-35 | sense data is per LUN: without a reset, no command the host sends to other LUNs changes it |
| Protocol.SenseUntouched | src/LCSCSI-STM32/scsi.c:29-35 | steps that neither reset nor act on a LUN leave its sense data as it is |
| Storage.AsksDecodes | src/LCSCSI-STM32/scsi.c:1084-1090 | for every LUN, 21-bit block address and count of 1 to 256, the block a host makes for it is understood as that LUN, address and count |
| Storage.EveryBlockAsks | src/LCSCSI-STM32/scsi.c:1084-1090 | every block of six bytes asks for exactly one LUN, address and count |
| Storage.Lba10Decodes | src/LCSCSI-STM32/scsi.c:1837-1840 | VERIFY takes the 32-bit address the host has put in, high byte first |
| Storage.WrittenIsReadBack | src/LCSCSI-STM32/scsi.c:1037-1371 | n blocks a host writes to address lba of a LUN, inside the image, it reads back, and both commands succeed, if no reset comes from the one to the other, FatFs fails in neither and nothing else is written to the LUN |
| Storage.TransferSucceeds | src/LCSCSI-STM32/scsi.c:1050-1196 | in every run READ(6) and WRITE(6) with no reset and no failure of FatFs succeed if and only if the card is mounted and has an image of the LUN |
| Storage.StartedLunServes | src/LCSCSI-STM32/scsi.c:1099-1196 | READ(6) or WRITE(6) sent to a started LUN fails only if FatFs fails, or the host pulls the reset line or leaves a byte unacknowledged |
| Storage.SelectedIsSensed | src/LCSCSI-STM32/scsi.c:1569-1735 | MODE SENSE succeeds and sends the 22 bytes the last MODE SELECT to the LUN has taken, if there was room for them and FatFs has not failed |
| Storage.DescriptorPersists | src/LCSCSI-STM32/filesystem.c:470-656 | a descriptor stays as it is until the next MODE SELECT sent to its LUN, over any other commands and resets, as long as FatFs does not fail |
| Storage.MountPersists | src/LCSCSI-STM32/filesystem.c:63-105 | only a reset changes whether the card is mounted |
| Storage.ReadsWhatWasWritten | src/LCSCSI-STM32/scsi.c:1213-1371 | each byte a WRITE(6) to block lba of a LUN has stored, also one that failed or was cut short, is what a later READ(6) of its block sends, as long as no WRITE(6) or FORMAT is sent to that LUN in between; the byte must be one the image had or could grow by |
| Storage.RoundTrip | src/LCSCSI-STM32/scsi.c:1037-1197 | READ(6) of n blocks from lba of a LUN sends back all the data of a successful WRITE(6) to the same blocks inside the image |
| Storage.WriteIsExact | src/LCSCSI-STM32/scsi.c:1302-1361 | the blocks a WRITE(6) to block lba has handed to the card are all in the image, at byte lba times the block size, if and only if they fit in what the image had and could grow by; no other byte changes |
| Storage.WriteInsideImage | src/LCSCSI-STM32/scsi.c:1302-1361 | a request inside the image leaves exactly the old image with the blocks laid over it, full volume or not |
| Storage.FullVolumeLosesData | src/LCSCSI-STM32/filesystem.c:1361-1384 | a run in which WRITE(6) reports good status on a full volume and the image holds nothing of it |
| Storage.ReadIsExact | src/LCSCSI-STM32/scsi.c:1037-1197 | READ(6) of n blocks from lba inside the image sends nothing but the image, however it ends; one that succeeds has an image, and sends its bytes from lba on if and only if the blocks lie inside it |
| Storage.ReadPastTheEnd | src/LCSCSI-STM32/filesystem.c:1253-1304 | for any block of bytes a run in which READ(6) of an empty image sends it with good status |
| Storage.SilentFailures | src/LCSCSI-STM32/scsi.c:1824-1832 | a command that is not INQUIRY fails without recording an error if and only if it is a VERIFY sent to a stopped LUN |
| Storage.ImagePersists | src/LCSCSI-STM32/scsi.c:246-379 | an image stays as it is until the host sends the next WRITE(6) or FORMAT to its LUN, over any other commands and any number of resets; images in other directories always |
| Scsi.Target.ProcessEmulation | src/LCSCSI-STM32/scsi.c:246-379 | from any reachable state one call makes one legal step, keeps the file handle closed and every started LUN usable, changes no file of another LUN, no image except in WRITE(6) and FORMAT, and no descriptor except in MODE SELECT unless FatFs fails |
| Scsi.Target.ExecuteCommand | src/LCSCSI-STM32/scsi.c:282-333 | every command: one data phase at most, on to Status or to bus free by reset, bad status only with an error recorded for its own LUN; VERIFY of a stopped LUN always fails and records nothing; what READ(6), WRITE(6), MODE SELECT and MODE SENSE do when nothing fails |
| Scsi.Target.BusState | src/LCSCSI-STM32/scsi.c:251-280 | the states between commands make legal steps: each look at SEL and BSY is recorded, and with the ID sampled they alone decide the next state; only a command block changes what is held of it |
| Scsi.Target.constructor | src/LCSCSI-STM32/scsi.c:166-198 | initialisation: bus free, no error on record and I/O left asserted; unless FatFs fails the card is mounted, and LUN 0 is started exactly if it has an image |
| Scsi.Target.InformationTransferPhase | src/LCSCSI-STM32/scsi.c:385-430 | each phase writes the MSG, C/D and I/O of section 6.1.5 of ANSI X3.131-1994, and the data bus direction follows I/O |
| Scsi.Target.EmulationCommand | src/LCSCSI-STM32/scsi.c:476-659 | six bytes for groups 0 and 6, ten for group 1, sampled one by one in the command phase; LUN and command are those of the block |
| Scsi.Target.ReceiveCdb | src/LCSCSI-STM32/scsi.c:487-548 | the bytes received are the front of the command block, their number the one the first byte asks for |
| Scsi.Target.DecodeCommand | src/LCSCSI-STM32/scsi.c:553-658 | the command table; everything else goes to bus free |
| Scsi.Target.EmulationStatus | src/LCSCSI-STM32/scsi.c:662-674 | sends the status byte in the status phase |
| Scsi.Target.EmulationMessage | src/LCSCSI-STM32/scsi.c:677-689 | sends message 0 in the message-in phase |
| Scsi.Target.CommandSelect | src/LCSCSI-STM32/scsi.c:1915-1964 | one sample of the data bus decides: with the bit of the own ID set BSY is asserted, SEL polled until it is released, and the command phase entered, else the target goes to bus busy; SEL held for more than 250 ticks counts as a reset, so the wait always ends |
| Scsi.Target.CommandTestUnitReady | src/LCSCSI-STM32/scsi.c:701-734 | good status exactly for a started LUN, else error 0x02 on record |
| Scsi.Target.CommandRequestSense | src/LCSCSI-STM32/scsi.c:792-856 | sends the four bytes that encode the sense data of the LUN, and clears it |
| Scsi.Target.SenseReply | src/LCSCSI-STM32/scsi.c:814-839 | the reply bytes are the encoding of the sense data |
| Scsi.Target.CommandFormat | src/LCSCSI-STM32/scsi.c:872-1014 | after good status the image has exactly the size the descriptor asks for, and the LUN is started exactly if the start has worked, which it has if the LUN was started before; if FatFs does not fail, a LUN with an image is formatted exactly if it has a descriptor of a size other than zero; bad status means the LUN is stopped and its image as it was, or empty; the defect list is read exactly when the options ask for it; only files of the LUN change |
| Scsi.Target.ReceiveDefectList | src/LCSCSI-STM32/scsi.c:943-981 | takes as many bytes off the bus as the list header announces, in whole records |
| Scsi.Target.RecreateImage | src/LCSCSI-STM32/scsi.c:983-1013 | FORMAT once the list has been read: the image anew and the outcome of the start ignored, or the LUN stopped and the error recorded; which of the two it is when FatFs does not fail |
| Scsi.Target.CommandRead6 | src/LCSCSI-STM32/scsi.c:1037-1197 | sends the bytes of the image from the addressed block on, all blocks of the request when it succeeds, a prefix otherwise; starts a stopped LUN with an image; with no reset and no failure of FatFs it succeeds if and only if there is an image on a mounted card |
| Scsi.Target.ReadBlocks | src/LCSCSI-STM32/scsi.c:1099-1196 | the data-in phase of READ(6), for a failing open, a failing read and a reset alike: handle closed, LUN stopped on failure; it fails only if FatFs does |
| Scsi.Target.SendBlocks | src/LCSCSI-STM32/scsi.c:1122-1180 | the block loop: the k-th block sent is sector LBA + k of the image; it fails only if FatFs does |
| Scsi.Target.CommandWrite6 | src/LCSCSI-STM32/scsi.c:1213-1371 | of the bytes sampled from the bus exactly the first whole blocks are in the image at the addressed place, as far as the volume has room, and every other byte is unchanged: all blocks on success, all but the last on a failing write, those before a reset or an ACK timeout; with no reset and no failure of FatFs it succeeds if and only if there is an image on a mounted card |
| Scsi.Target.WriteBlocks | src/LCSCSI-STM32/scsi.c:1274-1370 | the data-out phase of WRITE(6), for a failing open, a failing write and a reset alike; it fails only if FatFs does |
| Scsi.Target.StoreBlocks | src/LCSCSI-STM32/scsi.c:1302-1361 | the block loop: after b rounds the image is the old one with the first b blocks written; it fails only if FatFs does |
| Scsi.Target.AutoStart | src/LCSCSI-STM32/scsi.c:1050-1082 | READ and WRITE start a stopped LUN that has an image, or fail with error class 2, code 0x1C; unless FatFs fails, the start works if and only if there is an image on a mounted card |
| Scsi.Target.GiveUp | src/LCSCSI-STM32/scsi.c:1102-1123 | recovery: image closed, LUN stopped, drive not ready on record |
| Scsi.Target.CommandTranslate | src/LCSCSI-STM32/scsi.c:1425-1552 | with a descriptor of one head or more sends the cylinder, head and bytes from index of the address; unless FatFs fails it succeeds if and only if the LUN is started and has a descriptor, and uses that one |
| Scsi.Target.CommandModeSelect | src/LCSCSI-STM32/scsi.c:1569-1656 | if FatFs does not fail: good status for a descriptor that is there or can be made and a list length of 22, and then the 22 bytes sampled from the bus are written over its front, as far as there is room |
| Scsi.Target.CommandModeSense | src/LCSCSI-STM32/scsi.c:1666-1735 | sends the 22 bytes of the descriptor on the card; unless FatFs fails it succeeds if and only if there is one and the list length is 22 |
| Scsi.Target.CommandStartStop | src/LCSCSI-STM32/scsi.c:1749-1794 | good status exactly with the LUN started or stopped as asked; bad status only for a start, with the LUN still stopped and error class 2, code 0x24 on record; unless FatFs fails, a start works if and only if there is an image on a mounted card, and a missing descriptor is made |
| Scsi.Target.CommandVerify | src/LCSCSI-STM32/scsi.c:1811-1912 | good status exactly for a started LUN, a descriptor that opens and an address below its sector count; an address past it is recorded with the error; unless FatFs fails the descriptor opens if it is there, and its bytes are used |
| Scsi.Target.CommandInquiry | src/LCSCSI-STM32/scsi.c:1966-2001 | leaves the file system alone and the status as it was |
| Scsi.Target.Reset | src/LCSCSI-STM32/scsi.c:202-241 | no error on record for any LUN, and bus free |
| Filesystem.FileSystem.Mount | src/LCSCSI-STM32/filesystem.c:107-172 | the card mounted with at most LUN 0 started; no image changes; unless FatFs fails the card is mounted, LUN 0 started exactly if it has an image, and every descriptor kept |
| Filesystem.FileSystem.Dismount | src/LCSCSI-STM32/filesystem.c:173-234 | nothing mounted, nothing started, no file changed |
| Filesystem.FileSystem.Reset | src/LCSCSI-STM32/filesystem.c:63-105 | with all started LUNs found nothing changes; with one missing, or no card mounted, the card is mounted afresh and at most LUN 0 is started; afterwards every started LUN is usable, and no image has changed; unless FatFs fails none is missing, the card is mounted and every descriptor kept |
| Filesystem.FileSystem.SetLunStatus | src/LCSCSI-STM32/filesystem.c:239-314 | unless FatFs fails, starting a stopped LUN succeeds if and only if the card is mounted and the image there, and a missing descriptor is made from the image size; stopping always succeeds; no other LUN is touched |
| Filesystem.FileSystem.StopAll | src/LCSCSI-STM32/filesystem.c:119-127 | all eight stopped, also from a state where a started LUN is not usable |
| Filesystem.FileSystem.TestLunStatus | src/LCSCSI-STM32/filesystem.c:323-344 | a LUN that passes is started and has its image; unless FatFs fails every started LUN passes |
| Filesystem.FileSystem.CheckLunDirectory | src/LCSCSI-STM32/filesystem.c:357-466 | true only with the card mounted and the directory there, made if it was not; unless FatFs fails exactly with the card mounted |
| Filesystem.FileSystem.CheckLunImage | src/LCSCSI-STM32/filesystem.c:470-656 | true only if the image is there, and exactly then unless FatFs fails; only the descriptor may be made, and is made if it is missing |
| Filesystem.FileSystem.CreateDscFromLunImage | src/LCSCSI-STM32/filesystem.c:716-917 | if FatFs does not fail, the descriptor is that of the image size, as much of it as there is room for |
| Filesystem.FileSystem.GetLunSizeFromDsc | src/LCSCSI-STM32/filesystem.c:659-709 | the size computed is that of the descriptor on the card |
| Filesystem.FileSystem.ReadLunDescriptor | src/LCSCSI-STM32/filesystem.c:1043-1075 | succeeds if and only if f_open has worked, whatever f_read does; hands out the first 22 bytes of the descriptor if f_read succeeds, and leaves the error in fsResult if it fails; unless FatFs fails it hands out the descriptor exactly if there is one |
| Filesystem.FileSystem.WriteLunDescriptor | src/LCSCSI-STM32/filesystem.c:1078-1111 | succeeds if and only if f_open has worked, whatever f_write does; unless FatFs fails that is if and only if the descriptor is there, and its front is overwritten as far as there is room |
| Filesystem.FileSystem.CreateLunImage | src/LCSCSI-STM32/filesystem.c:981-1009 | an image that is there is left alone; otherwise an empty one is made, in a directory that is there always unless FatFs fails |
| Filesystem.FileSystem.CreateLunDescriptor | src/LCSCSI-STM32/filesystem.c:1012-1040 | the same for descriptors |
| Filesystem.FileSystem.FormatLun | src/LCSCSI-STM32/filesystem.c:1114-1187 | a new image of exactly the size of the descriptor, in 32-bit arithmetic; unless FatFs fails an image that is there is replaced exactly if its descriptor is there and asks for more than nothing |
| Filesystem.FileSystem.SetLunDirectory | src/LCSCSI-STM32/filesystem.c:956-970 | every LUN stopped, so that none is started without an image in the new directory |
| Filesystem.FileSystem.OpenLunForRead | src/LCSCSI-STM32/filesystem.c:1194-1250 | the buffer filled from the start sector; refused only if an image is open; on failure the handle is closed; unless FatFs fails it succeeds exactly if the image is there |
| Filesystem.FileSystem.ReadNextSector | src/LCSCSI-STM32/filesystem.c:1253-1304 | the k-th call hands out sector start + k of the image for every buffer length; buffered, remaining and delivered sectors always add up to the request, and the media is read no further; it fails only if FatFs does |
| Filesystem.FileSystem.ReadAhead | src/LCSCSI-STM32/filesystem.c:1222-1242 | refills the buffer with the next sectors, and no more than remain |
| Filesystem.FileSystem.HandOut | src/LCSCSI-STM32/filesystem.c:1264-1273 | the sector copied out is the next one of the image |
| Filesystem.FileSystem.CloseLun | src/LCSCSI-STM32/filesystem.c:1307-1321 | flag cleared and handle released |
| Filesystem.FileSystem.OpenLunForWrite | src/LCSCSI-STM32/filesystem.c:1324-1358 | at the start sector, as far as the volume has room, with every byte of the image kept; when f_open fails it succeeds with no file open, and unless FatFs fails the image is open exactly if it is there |
| Filesystem.FileSystem.WriteNextSector | src/LCSCSI-STM32/filesystem.c:1361-1384 | the sector goes to the file position and nowhere else; a failing write leaves the image as it was; it fails only if FatFs does |
| Filesystem.LandingStep | src/LCSCSI-STM32/filesystem.c:1371-1382 | one more block keeps the image equal to the old one with all blocks so far written, as far as the volume has room |
| Filesystem.SectorOffset | src/LCSCSI-STM32/filesystem.c:1214 | the byte offset of a sector in 32-bit arithmetic |
| Geometry.DescriptorRoundTrip | src/LCSCSI-STM32/filesystem.c:659-776 | reading the size back from the descriptor of an image gives the size less its last partial track, exactly when the cylinders fit 16 bits, and always up to 536870656 bytes; FORMAT allocates the same number of bytes |
| Geometry.FindHeads | src/LCSCSI-STM32/filesystem.c:739-743 | the search finds the largest divisor of the track count in 1..16 |
| Geometry.LargestDivisor | src/LCSCSI-STM32/filesystem.c:739-743 | divides the track count, and nothing larger up to the bound does |
| Geometry.StoredSectors | src/LCSCSI-STM32/filesystem.c:744-776 | the sectors a stored descriptor describes are those of the whole tracks, exactly when the cylinders fit 16 bits |
| Geometry.TranslateInverts | src/LCSCSI-STM32/scsi.c:1457-1545 | the eight reply bytes decode to cylinder, head and sector that give the address back, with the head below the head count |
| Geometry.TranslateAgreesWithVerify | src/LCSCSI-STM32/scsi.c:1855-1909 | the cylinder of the reply is one of the drive exactly for the addresses VERIFY accepts |
| HostAdapters.HostAdapter.WriteDataPhaseFlags | src/LCSCSI-STM32/hostadapter.c:298-319 | the data bus is an output exactly while I/O is asserted |
| HostAdapters.HostAdapter.ReadByte | src/LCSCSI-STM32/hostadapter.c:242-262 | REQ once, and one sample of the data bus, after an acknowledge or a reset |
| HostAdapters.HostAdapter.WriteByte | src/LCSCSI-STM32/hostadapter.c:265-282 | one byte driven and REQ once, until an acknowledge or a reset |
| HostAdapters.HostAdapter.PollAck | src/LCSCSI-STM32/hostadapter.c:392-401 | true with the first poll that finds ACK active; false after exactly TOC_MAX polls in vain |
| HostAdapters.HostAdapter.PerformReadDMA | src/LCSCSI-STM32/hostadapter.c:373-410 | drives the buffer byte by byte, with one REQ each; short only if a byte is left unacknowledged, which sets the reset flag, and the count returned says where |
| HostAdapters.HostAdapter.PerformWriteDMA | src/LCSCSI-STM32/hostadapter.c:414-449 | the buffer holds the bytes sampled, in order, with one REQ each; short only if a REQ is left unacknowledged, which sets the reset flag |
| HostAdapters.HostAdapter.Reset | src/LCSCSI-STM32/hostadapter.c:184-199 | all signals off and the data bus an input |
| CyclicBuffers.CyclicBuffer.Write | src/LCSCSI-STM32/stm32/tm_stm32_buffer.c:79-167 | appends the first min(count, free) bytes, by two segment copies |
| CyclicBuffers.CyclicBuffer.WriteBytewise | src/LCSCSI-STM32/stm32/tm_stm32_buffer.c:148-166 | the byte-by-byte loop has the contract of the segment copies, down to the cells and the pointer |
| CyclicBuffers.CyclicBuffer.WriteToTop | src/LCSCSI-STM32/stm32/tm_stm32_buffer.c:169-223 | prepends the first min(count, free) bytes in their order |
| CyclicBuffers.CyclicBuffer.Read | src/LCSCSI-STM32/stm32/tm_stm32_buffer.c:225-313 | removes the first min(count, full) bytes and returns them in order |
| CyclicBuffers.CyclicBuffer.ReadBytewise | src/LCSCSI-STM32/stm32/tm_stm32_buffer.c:294-312 | the byte-by-byte loop has the same contract |
| CyclicBuffers.CyclicBuffer.GetFree | src/LCSCSI-STM32/stm32/tm_stm32_buffer.c:315-344 | free cells and stored bytes add up to Size - 1 |
| CyclicBuffers.CyclicBuffer.GetFull | src/LCSCSI-STM32/stm32/tm_stm32_buffer.c:346-376 | the number of stored bytes; full + free = Size - 1 |
| CyclicBuffers.CyclicBuffer.Reset | src/LCSCSI-STM32/stm32/tm_stm32_buffer.c:378-387 | empties the buffer |
| CyclicBuffers.CyclicBuffer.FindElement | src/LCSCSI-STM32/stm32/tm_stm32_buffer.c:389-422 | position of the first stored byte of that value, or -1 |
| CyclicBuffers.CyclicBuffer.ReadString | src/LCSCSI-STM32/stm32/tm_stm32_buffer.c:493-549 | moves up to and including the first delimiter, closes the string and leaves the rest of the buffer alone; bytes are moved if and only if there is room for one, and a delimiter is stored, the ring is full, or at least as many bytes are stored as the buffer has; says when a cell is skipped |
| CyclicBuffers.StoredAppends | src/LCSCSI-STM32/stm32/tm_stm32_buffer.c:79-167 | bytes laid down from the input pointer on, wrapping, are appended to the contents |
| CyclicBuffers.StoredPrepends | src/LCSCSI-STM32/stm32/tm_stm32_buffer.c:169-223 | bytes laid down before the output pointer, wrapping, are put in front |
| CyclicBuffers.RunOps | src/LCSCSI-STM32/stm32/tm_stm32_buffer.c:79-313 | any interleaving of writes, pushes and reads gives what it gives on a bounded sequence |
| CyclicBuffers.FirstInFirstOut | src/LCSCSI-STM32/stm32/tm_stm32_buffer.c:79-313 | without pushes the bytes read and those left are those stored at first and those accepted, in that order |
| CyclicBuffers.BytesConserved | src/LCSCSI-STM32/stm32/tm_stm32_buffer.c:79-313 | over any interleaving no byte is lost, made up or doubled |
| FileShift.TruncateBeginning | src/LCSCSI-STM32/stm32/tm_stm32_fatfs.c:49-98 | for every length, index and block size: if no FatFs call fails it succeeds and leaves exactly the suffix from index on; success leaves that suffix if and only if f_truncate has worked (its outcome is overwritten); without it the file is the half-moved one the contract states |
| FileShift.MoveForward | src/LCSCSI-STM32/stm32/tm_stm32_fatfs.c:74-92 | the loop moves everything from index on to the front, or stops with a known number of bytes in place, exactly if a FatFs call fails |
| FileShift.UnreadTail | src/LCSCSI-STM32/stm32/tm_stm32_fatfs.c:74-92 | what has not been read yet has not been overwritten |
| FileShift.MoveBlock | src/LCSCSI-STM32/stm32/tm_stm32_fatfs.c:74-92 | one more block read and written is one more block moved |
| DirectoryWalk.SearchWholeTree | src/LCSCSI-STM32/stm32/tm_stm32_fatfs.c:113-154 | with a callback that always continues and no FatFs failure the search succeeds exactly when every path fits the buffer, and then both counters are those of the tree, the callback has seen the whole tree in order, and the path buffer is restored |
| DirectoryWalk.SearchFolder | src/LCSCSI-STM32/stm32/tm_stm32_fatfs.c:113-154 | the same for any callback: the visits are those of the pure scan |
| DirectoryWalk.ScanFiles | src/LCSCSI-STM32/stm32/tm_stm32_fatfs.c:171-252 | the recursive walk on one shared path buffer visits what the pure scan visits and leaves the path the scan leaves; no write goes past the buffer |
| DirectoryWalk.ScanEntry | src/LCSCSI-STM32/stm32/tm_stm32_fatfs.c:194-247 | one entry: appended to the path, reported, descended into, and cut off again unless the descent has failed |
| DirectoryWalk.ScanVisitsAll | src/LCSCSI-STM32/stm32/tm_stm32_fatfs.c:171-252 | the scan has room exactly when every path fits, and then visits the full listing |
| DirectoryWalk.PathLeft | src/LCSCSI-STM32/stm32/tm_stm32_fatfs.c:189-247 | the path is back in the buffer if and only if there is room for every path the search comes to, or the first entry without room lies in the searched folder itself, both stated on tree, callback and size; otherwise a longer one is left |
| DirectoryWalk.ScanHasRoom | src/LCSCSI-STM32/stm32/tm_stm32_fatfs.c:189-247 | the search succeeds if and only if every path it comes to fits |
| DirectoryWalk.PathLeftBehind | src/LCSCSI-STM32/stm32/tm_stm32_fatfs.c:215-223 | a tree whose search leaves a longer path in the buffer |
| DirectoryWalk.StopsExactly | src/LCSCSI-STM32/stm32/tm_stm32_fatfs.c:213-247 | a stop request ends the search at once if and only if it comes in the searched folder itself, or nothing that could be visited follows in the folders above it, stated on tree, callback and size |
| DirectoryWalk.StopIsPassedOver | src/LCSCSI-STM32/stm32/tm_stm32_fatfs.c:213-247 | a tree in which the search goes on after a stop request |
| DirectoryWalk.ListingTally | src/LCSCSI-STM32/stm32/tm_stm32_fatfs.c:171-252 | the listing has as many files and folders as the tree has without passing a dot-named entry |
| DirectoryWalk.ListingIsUndotted | src/LCSCSI-STM32/stm32/tm_stm32_fatfs.c:171-252 | what is listed and counted is everything in the tree once the entries whose names begin with a dot are taken out |
| DirectoryWalk.ListingIsDotFree | src/LCSCSI-STM32/stm32/tm_stm32_fatfs.c:188-190 | no listed path passes a component that begins with a dot |
| DirectoryWalk.ListedFoldersResolve | src/LCSCSI-STM32/stm32/tm_stm32_fatfs.c:171-252 | each folder path handed to the callback names that folder |
| FrameBuffers.Geometry.AddressInjective | src/LCSCSI-STM32/stm32/tm_stm32_dma2d_graphic.c:106-129 | no two pixels share a cell, in all four orientations |
| FrameBuffers.Geometry.AddressOnto | src/LCSCSI-STM32/stm32/tm_stm32_dma2d_graphic.c:106-129 | every cell is a pixel |
| FrameBuffers.Geometry.AddressRotates | src/LCSCSI-STM32/stm32/tm_stm32_dma2d_graphic.c:106-116 | pixel (x, y) of orientation 1 is cell y * width + x, and the other three orientations are its rotations by half a turn and by a quarter to either side |
| FrameBuffers.Display.SetOrientation | src/LCSCSI-STM32/stm32/tm_stm32_dma2d_graphic.c:131-150 | swaps the dimensions for orientations 2 and 3; others are filtered out |
| FrameBuffers.Display.DrawPixel | src/LCSCSI-STM32/stm32/tm_stm32_dma2d_graphic.c:106-116 | changes exactly the cell of the pixel |
| FrameBuffers.Display.InitAndTransfer | src/LCSCSI-STM32/stm32/tm_stm32_dma2d_graphic.c:653-673 | fills rows of DMA2D_Width cells, DIS.Width apart |
| FrameBuffers.Display.DrawVerticalLine | src/LCSCSI-STM32/stm32/tm_stm32_dma2d_graphic.c:307-354 | in all orientations changes exactly the cells of the visible pixels of the line with its start moved to the edge of the screen; those are the pixels of the line asked for under VerticalExact |
| FrameBuffers.Display.DrawHorizontalLine | src/LCSCSI-STM32/stm32/tm_stm32_dma2d_graphic.c:356-404 | the same, with the length cut in 16-bit arithmetic, and HorizontalExact |
| FrameBuffers.VerticalLineExact | src/LCSCSI-STM32/stm32/tm_stm32_dma2d_graphic.c:321-337 | for all starts and lengths: what is drawn is what can be seen of the line asked for if and only if it is empty, starts past the right or lower edge, or starts neither left of the screen nor above it without reaching its lower edge |
| FrameBuffers.HorizontalLineExact | src/LCSCSI-STM32/stm32/tm_stm32_dma2d_graphic.c:363-384 | the same for horizontal lines: empty, starting past the right or lower edge, ending just before the screen, or reaching it and not above it |
| FrameBuffers.LinesOffTheScreen | src/LCSCSI-STM32/stm32/tm_stm32_dma2d_graphic.c:307-404 | three lines nothing of which can be seen, and which are drawn |
| FrameBuffers.PixelPaintsRow | src/LCSCSI-STM32/stm32/tm_stm32_dma2d_graphic.c:363-384 | a pixel two or more columns left of the screen, drawn as a horizontal line of length 1, is a whole row |
| FrameBuffers.Display.DrawFilledRectangle | src/LCSCSI-STM32/stm32/tm_stm32_dma2d_graphic.c:171-214 | in orientations 0, 1 and 3 changes exactly the cells of the visible pixels; in orientation 2 the cells the contract names |
| FrameBuffers.RotatedFillMatches | src/LCSCSI-STM32/stm32/tm_stm32_dma2d_graphic.c:205-210 | in orientation 2 a rectangle lands on its own pixels if and only if x equals y |
| FrameBuffers.VisibleLength | src/LCSCSI-STM32/stm32/tm_stm32_dma2d_graphic.c:370-373 | the length left of a line starting left of the screen is right if and only if the line reaches the screen |
| FrameBuffers.PaintedIsPlotted | src/LCSCSI-STM32/stm32/tm_stm32_dma2d_graphic.c:106-214 | a fill gives the same buffer as plotting its visible pixels one by one, in any order |
| FrameBuffers.PaintedDetermines | src/LCSCSI-STM32/stm32/tm_stm32_dma2d_graphic.c:106-214 | the pixel-wise contract fixes every cell of the buffer |
| Curves.DrawLine | src/LCSCSI-STM32/stm32/tm_stm32_dma2d_graphic.c:406-459 | the pixels drawn, in order, are those of the closed form if and only if the error term fits 16 bits; on the screen the frame buffer then has exactly these pixels drawn |
| Curves.PeakExact | src/LCSCSI-STM32/stm32/tm_stm32_dma2d_graphic.c:451-453 | the error term never exceeds den - g + (den / 2) mod g, with g the greatest common divisor of the two distances, and reaches it; so the line fits 16 bits if and only if that and numadd add up to 32767 at most |
| Curves.ShortLinesFit | src/LCSCSI-STM32/stm32/tm_stm32_dma2d_graphic.c:406-459 | every line whose distances add up to 32768 at most fits, so every line on a screen of up to 16384 by 16384 pixels |
| Curves.LineOnScreen | src/LCSCSI-STM32/stm32/tm_stm32_dma2d_graphic.c:406-459 | a line between two points of the screen stays on the screen |
| Curves.Canvas.DrawPixel | src/LCSCSI-STM32/stm32/tm_stm32_dma2d_graphic.c:66-68 | the inline pixel of the line, a horizontal line of length 1: while all pixels are on the screen the frame buffer is the first one with these pixels plotted |
| Curves.WithinHalfAPixel | src/LCSCSI-STM32/stm32/tm_stm32_dma2d_graphic.c:406-459 | every pixel is within half a pixel of the ideal line |
| Curves.EndPoints | src/LCSCSI-STM32/stm32/tm_stm32_dma2d_graphic.c:406-459 | the line starts and ends exactly at the given points |
| Curves.Adjacent | src/LCSCSI-STM32/stm32/tm_stm32_dma2d_graphic.c:406-459 | consecutive pixels are neighbours, none is plotted twice |
| Curves.DrawCircle | src/LCSCSI-STM32/stm32/tm_stm32_dma2d_graphic.c:472-504 | where no coordinate wraps around, what is drawn is a circle if and only if the radius is at most 16556, or 16642 or 16643: every point within half a pixel of the circle, closed under reflection in both axes and the diagonal, with the four points on the axes and the rounded point of every column up to the diagonal; with its square on the screen all of it is |
| Curves.CircleIsCircle | src/LCSCSI-STM32/stm32/tm_stm32_dma2d_graphic.c:479-503 | the cardinal points and the eight mirror images of an octant are such a circle exactly for these radii |
| Curves.EveryColumn | src/LCSCSI-STM32/stm32/tm_stm32_dma2d_graphic.c:485-503 | the rounded point of every column up to the diagonal is on the axis or in the octant |
| Curves.CircleStep | src/LCSCSI-STM32/stm32/tm_stm32_dma2d_graphic.c:485-496 | the midpoint step keeps f, ddF_x and ddF_y what they stand for, modulo 2^16, with f the midpoint test (x+1)^2 + y^2 - y - r^2 |
| Curves.DecisionRounds | src/LCSCSI-STM32/stm32/tm_stm32_dma2d_graphic.c:485-496 | the sign of the midpoint test picks the rounded point of the next column |
| Curves.DecisionFits | src/LCSCSI-STM32/stm32/tm_stm32_dma2d_graphic.c:472-504 | for these radii the midpoint test fits 16 bits in every round |
| Curves.HalfAPixel | src/LCSCSI-STM32/stm32/tm_stm32_dma2d_graphic.c:472-504 | a rounded point is less than half a pixel from the circle |
| SoftTimers.PeriodsExact | src/LCSCSI-STM32/stm32/tm_stm32_delay.c:198-237 | an auto-reload timer has fired exactly floor(n/p) times after n enabled ticks, whenever they come, and its counter is the phase |
| SoftTimers.OneShot | src/LCSCSI-STM32/stm32/tm_stm32_delay.c:198-237 | a one-shot timer fires once, at tick p, and stays stopped |
| SoftTimers.GatedIsTicks | src/LCSCSI-STM32/stm32/tm_stm32_delay.c:198-237 | a timer left running has one enabled tick per tick |
| SoftTimers.FollowPeriods | src/LCSCSI-STM32/stm32/tm_stm32_delay.c:146-237 | started and stopped at will, an auto-reload timer that is not reloaded has fired once per full period of enabled ticks, also one created during the run |
| SoftTimers.TimerTable.RunOps | src/LCSCSI-STM32/stm32/tm_stm32_delay.c:71-237 | any interleaving of ticks, create, delete, start, stop and reset, on the timers of the table and on those created in the run, takes every timer not deleted where its own calls and the ticks take it, whatever is done to the others |
| SoftTimers.FollowAllAt | src/LCSCSI-STM32/stm32/tm_stm32_delay.c:146-237 | what becomes of a timer depends on its own calls and the ticks only |
| SoftTimers.FollowCreated | src/LCSCSI-STM32/stm32/tm_stm32_delay.c:71-100 | a timer created in the run goes its way from there, by the calls and ticks that follow |
| SoftTimers.TimerTable.Create | src/LCSCSI-STM32/stm32/tm_stm32_delay.c:71-100 | appends a loaded timer; nothing exactly when the table is full or malloc fails |
| SoftTimers.TimerTable.Delete | src/LCSCSI-STM32/stm32/tm_stm32_delay.c:102-144 | removes exactly that timer; all others keep order, counters and phase |
| SoftTimers.TimerTable.IncTick | src/LCSCSI-STM32/stm32/tm_stm32_delay.c:198-241 | every registered timer makes one tick |
| SoftTimers.TimerTable.Run | src/LCSCSI-STM32/stm32/tm_stm32_delay.c:198-241 | the exact numbers of firings after n ticks, for all timers of the table |
| SoftTimers.Timer.Reset | src/LCSCSI-STM32/stm32/tm_stm32_delay.c:162-168 | loads the counter |
| Buttons.Button.Check | src/LCSCSI-STM32/stm32/tm_stm32_button.c:115-201 | the cascade of stages is the step function of the debouncer |
| Buttons.Update | src/LCSCSI-STM32/stm32/tm_stm32_button.c:104-112 | every registered button looks at its own pin |
| Buttons.MeaningHolds | src/LCSCSI-STM32/stm32/tm_stm32_button.c:115-201 | what each state says about the samples so far |
| Buttons.TraceGrammatical | src/LCSCSI-STM32/stm32/tm_stm32_button.c:115-201 | the events of every run form (OnPressed (Normal or Long)?)* |
| Buttons.LongMeansHeld | src/LCSCSI-STM32/stm32/tm_stm32_button.c:115-201 | Long only if every sample since the press began found the button held, and more than the long time has passed |
| Buttons.OnPressedMeansHeld | src/LCSCSI-STM32/stm32/tm_stm32_button.c:115-201 | the same for OnPressed and the debounce time |
| Buttons.NormalMeansReleased | src/LCSCSI-STM32/stm32/tm_stm32_button.c:115-201 | Normal only on the release of a press of more than the normal time |
| Buttons.NoSecondPress | src/LCSCSI-STM32/stm32/tm_stm32_button.c:115-201 | no second OnPressed before a release is sampled |
| Buttons.PressIsReported | src/LCSCSI-STM32/stm32/tm_stm32_button.c:115-201 | a press held long enough is reported at the first sample that shows it |
| Buttons.LongIsReported | src/LCSCSI-STM32/stm32/tm_stm32_button.c:157-171 | a press held past the long time, and past the debounce time should that be longer, gets its Long at the first sample that shows it |
| Buttons.NormalIsReported | src/LCSCSI-STM32/stm32/tm_stm32_button.c:172-184 | a press past the debounce time and released before the long time gets its Normal on the release if and only if the normal time has passed |
| Buttons.ElapsedAcrossZero | src/LCSCSI-STM32/stm32/tm_stm32_button.c:138 | the time since a press is right also when the 32-bit clock has passed zero in between |

Line ranges are those of the code modelled; for a property of whole runs they are those of the code that
makes it hold.

## Left out

- Scsi.Target.CommandInquiry: says nothing about the reply, which the source never sends, and lets the state after an EVPD request be anything, as the source returns none.
- Scsi.Target.CommandTranslate: with a head count of zero the source divides by zero; the reply is arbitrary then.
- Filesystem.FileSystem.ReadLunDescriptor: after a failing f_read the bytes handed out are arbitrary, as in the source.
- Curves.DrawLine: a last pixel number of 32767 is excluded, because the loop of the source does not end then.
- Curves.DrawCircle: where a coordinate of the circle wraps around in 16 bits, nothing is said of its shape; for the radii that do not fit, nothing is said of what is drawn instead.
- DirectoryWalk.ScanFiles: the path left in the buffer is described as long as FatFs itself reports no failure.
- SoftTimers.TimerTable.RunOps: a timer that has been deleted is not used again, because its memory has been freed, and nothing is called for one that could not be created.
- SoftTimers.TimerTable.IncTick: callbacks leave the timer table alone; what else they do is not modelled.
- The loss of directory entry updates when f_close fails: a file keeps the size and contents it had in the model.
- Group 6 commands (LV-DOS, BeebSCSI) and FAT transfers: their calls are commented out.
- scsiEmulationBusFree: its call is commented out.
- Debug output, the status printout of main.c included, which also reads the data bus; the configuration interrupt that sets debug flags; the emulation mode.
- The five user code bytes read from .ucd files: they are read and not described.
- sprintf of path names: files are named by directory, LUN and extension.
- TM_BUFFER_Find and TM_BUFFER_CheckElement; initialising and freeing buffers.
- DrawRectangle, rounded rectangles, triangles, polylines, corners, filled circles, whole-screen fills, layers and buffer copies.
- Timer setters other than start, stop and reset; the delay functions; button registration and press-time setters.
- Clock, GPIO and interrupt setup, USART, and the sensor, display, storage-driver and signal-processing libraries: register access, floating point or code that is not part of this model.
