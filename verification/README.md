# A USB flash drive that writes behind the host's back

The firmware is a small write-back disk for an AVR microcontroller. A host writes 512-byte
blocks over USB Bulk-Only Transport into external RAM. A dirty map records finished blocks,
and the main loop copies dirty blocks to an EEPROM, one 128-byte page per pass, while new
packets keep coming. The USB port itself is software: an interrupt routine takes and sends
packets while the main program reads and fills the same buffers.

This project models that program and proves what it is for.

* **The disk.** `Disk` is a plain disk of 128 blocks: no cache, no dirty map, no EEPROM, no
  ring. `Device` is one pass of the main loop on values. `Runs.EveryRun` says, of every run
  from power-up with an obedient host, any timing and any failures of the EEPROM: the packets
  sent are the plain disk's answers, in order, and each RAM byte equals its EEPROM byte unless
  its block is dirty, or being flushed at a page not yet copied, or being received, or lies in
  a page whose last write the EEPROM refused. `Commands.EveryCommandAnswered` reads the same
  runs as lists of commands, each taking effect in turn and answered once.
  `PowerCycle.SurvivesPowerCycle` says when, exactly, enough passes without data packets make
  the disk survive a power cycle, and `Refused` what becomes of a block, exactly, when the EEPROM refuses pages
  of it, which the code does not look at.
* **The host's side.** `Host` speaks of the bytes of a command block and of its answer alone:
  for every 32-bit address which block a READ sends and where a WRITE lands, and what every
  opcode is answered with. `Wire` does the same for the bus: which packet gets which answer, byte
  for byte, and that the histories of the driver's model are what the bus saw.
* **The program.** `Firmware` is the class with the globals and static buffers of `src/main.c`
  and `src/commands.c`, changed in place, over the packet ring of `src/usbdata.c` and the
  EEPROM driver of `src/ext_eeprom.c`, which succeeds if and only if no step of the bus
  failed it. Each routine is proved to do to its fields what
  `Device` says, and `Refinement.ObedientTurn` joins the two: the code's own pass through the
  main loop keeps the invariants of all runs.
* **The driver.** `UsbMachine` interleaves the interrupt routine with the main program, one
  step per access to a shared variable. `UsbRuns` proves of every interleaving that each
  acknowledged packet is processed exactly once and in order, that nothing of an earlier
  transfer leaves on endpoint 0 after a new SETUP, that no packet leaves half copied, and that
  each packet leaves exactly once with alternating PIDs if and only if every call found the
  buffer free, which the main loop's guard sees to. `UsbDriver` is the class whose routines,
  undisturbed, are proved to make exactly the machine's steps. `Joint` puts disk and driver
  into one state: `Joint.EndToEnd` is about the packets on the bus alone. `Live` and
  `LiveControl` bound the steps and tokens until the next OUT packet is acknowledged and taken,
  until the host has heard every answer, and until it has heard a control reply to its end.
* **The parts.** `Crc16` has both `usbCrc16` routines, instruction by instruction, against
  the bit-serial CRC of section 8.3.5 of USB 2.0. `PageSplit` proves for which arguments the
  page splitting of `ExtEeprom` is right: if and only if a condition that a caller can check,
  over all 16-bit addresses and lengths; `LoopEnds` for which arguments its loop ends at all.
  `RamPins` drives the SRAM chip through its port bits. `Limits` states what happens where the
  code leaves the specification.

Hypotheses about the host are in `Disk.MaySend` and `Disk.InRange`: it starts a command only
after it received the status of the one before (sections 3.3 and 3.4 of USB Mass Storage
Bulk-Only Transport 1.0), READ and WRITE ask for at least one block and stay on the disk, and
data packets are full. The first packet of a command block has at least four bytes.

`dafny verify dfyconfig.toml` checks everything.

## Model

| member | source | states |
|---|---|---|
| Crc16.TableIsShift | src/usbdrv/usbdrvasm.S:150-167 | the table of the fast form, one byte at a time, is eight bit-serial turns of the reflected 0xA001 register |
| Crc16.TableIsTurns | src/usbdrv/usbdrvasm.S:151-159 | the low byte goes through the parity form and the high byte just moves down, for every register value |
| Crc16.ParityOf | src/usbdrv/usbdrvasm.S:186-195 | the folded nibbles, shifts and increment leave the parity of the byte |
| Crc16.ShiftIn | src/usbdrv/usbdrvasm.S:196-210 | the two rotate-and-add rounds build x<<6 ^ x<<7, the 0xc001 of odd parity and the old high byte |
| Crc16.FastByte | src/usbdrv/usbdrvasm.S:184-210 | one byte of the fast routine is the table step |
| Crc16.UsbCrc16Fast | src/usbdrv/usbdrvasm.S:177-216 | the fast routine returns the complement of the reflected 0xA001 register started at 0xffff, for every byte string |
| Crc16.BitTurn | src/usbdrv/usbdrvasm.S:245-251 | with the register kept complemented and a set carry shifted in, one turn is a turn of the true register |
| Crc16.BitLoop | src/usbdrv/usbdrvasm.S:245-253 | subtracting 224 from the 8-bit counter makes exactly eight turns, the carry set at the start of each |
| Crc16.UsbCrc16Slow | src/usbdrv/usbdrvasm.S:232-258 | the slow routine returns the same value as the fast one, for every byte string up to the 8-bit length |
| Crc16.UsbCrc16Append | src/usbdrv/usbdrvasm.S:264-268 | the two bytes after the data become the CRC, low byte first; no other byte changes |
| Crc16.TrailerIffResidue | src/usbdrv/usbdrvasm.S:264-268 | data followed by two bytes has CRC 0x4FFE if and only if the two bytes are those usbCrc16Append stores |
| PageSplit.PageWriteInside | src/ext_eeprom.c:99-128 | a page write inside its physical page is a plain write |
| PageSplit.NoTurnLeavesIff | src/ext_eeprom.c:159-175 | for a block inside 64 KiB, no page write of the split loop leaves its physical page if and only if the block ends by its second page or the first step divides 128 |
| PageSplit.LoopIsSplice | src/ext_eeprom.c:159-175 | k turns of the 16-bit loop write exactly the data up to the k-th cut, going on at address 0; behind the wrap the block is rounded up to whole steps, because the clipping no longer works |
| PageSplit.LeavingSpoils | src/ext_eeprom.c:164-169 | a turn that leaves its page, the last to start there, leaves a wrong byte in the chip for some contents and data |
| PageSplit.OvershootSpoils | src/ext_eeprom.c:163-175 | so does a last turn that writes more than the block |
| PageSplit.LongSpoils | src/ext_eeprom.c:163-175 | outside the page condition some contents and data are always spoilt, even when the 16-bit counter overflows and the loop goes round again |
| PageSplit.WritesExactlyIff | src/ext_eeprom.c:145-177 | for every address and every non-zero length the loop ends with every block exactly in place, going on at address 0, and nothing else changed, if and only if the page condition holds and a block that goes on at address 0 is a whole number of steps |
| LoopEnds.LoopEndsIff | src/ext_eeprom.c:163-175 | for every address and every length, the split loop ends if and only if the block stays inside 64 KiB, or leaves room for the common divisor of step and page below 65536, or its last turn before address 65536 is clipped: three comparisons a caller can make |
| LoopEnds.NeverEnds | src/ext_eeprom.c:163-175 | otherwise the 16-bit counter is a multiple of that divisor below the length after every number of turns: the block is written over and over |
| LoopEnds.ReadEndsIff | src/ext_eeprom.c:200 | the read loop, with its 8-bit counter against a 16-bit end, ends if and only if one to 256 bytes are asked for |
| ExtEeprom.Eeprom.Wait | src/ext_eeprom.c:47-59 | polling ends and changes no memory; it fails if and only if all eleven polls failed |
| ExtEeprom.Eeprom.WritePage | src/ext_eeprom.c:111-128 | it succeeds if and only if no step of the bus failed, polls of a chip that answered in time aside; then the chip took the bytes as one page write, otherwise it took nothing |
| ExtEeprom.Eeprom.WriteBlock | src/ext_eeprom.c:145-177 | for all arguments on which the loop ends, the empty block included: a block that is not empty succeeds if and only if no step of the bus failed; on success the chip holds all turns of the split loop, on an error those before the failing one; while its turns keep to their pages, exactly the block, rounded up to whole steps if it goes on at address 0 |
| ExtEeprom.Eeprom.WriteByte | src/ext_eeprom.c:218-221 | one byte is written, at any address, if and only if no step of the bus failed |
| ExtEeprom.Eeprom.WriteWord | src/ext_eeprom.c:230-233 | two bytes are written, the low one first, at any address, 0xffff included, if and only if no step of the bus failed |
| ExtEeprom.Eeprom.WriteDword | src/ext_eeprom.c:235-246 | four bytes are written, the lowest first, at any address but 0xfffd; there two bytes of the stack go to addresses 1 and 2 as well; it succeeds if and only if no step of the bus failed |
| ExtEeprom.Eeprom.ReadBlock | src/ext_eeprom.c:190-209 | it succeeds if and only if no step of the bus failed; then the buffer holds the bytes from the address on, modulo 64 KiB, nothing behind it changes, and the chip keeps its memory |
| RamPins.Strobes | src/ram.c:53-61 | lowering and raising the strobes one by one strobes the chip only in the middle of a write and ends as it began |
| RamPins.Ports.SetAddress | src/ram.c:38-48 | the address lines show all 16 bits of the address, the other port bits stay, and the chip stores nothing on the way |
| RamPins.Ports.WriteByte | src/ram.c:36-65 | the addressed byte of the chip changes and no other; every port bit that is not an address line is kept |
| RamPins.Ports.ReadByte | src/ram.c:67-94 | the addressed byte is returned and the chip is unchanged |
| Transfer.ChunksOfMessage | src/usbdata.c:36-44 | a packet is cut into ceil(len/8) pieces, at least one, all full but the last, that concatenate to it |
| Transfer.StreamAppend | src/usbdata.c:53-61 | queueing a packet adds its pieces behind everything still to be sent |
| Transfer.StreamHead | src/usbdata.c:36-50 | the next piece is the front of the oldest packet; a piece never mixes two packets |
| PacketRing.BetweenPush | src/usbdata.c:55-60 | filling the slot at the in-index appends to the queue through the wrap-around, while a slot stays free |
| PacketRing.HundredthPacketEmptiesRing | src/usbdata.c:53-61 | with 99 packets outstanding, a hundredth makes the indices meet and the ring looks empty |
| PacketRing.Ring.SendData | src/usbdata.c:53-61 | with at most 98 outstanding, the packet joins the end of the FIFO and its chunks the end of the stream |
| PacketRing.Ring.SendNextData | src/usbdata.c:26-51 | exactly the next chunk of the stream is handed over, as its buffer is now; nothing when nothing is queued |
| PacketRing.Ring.SendChunk | src/usbdata.c:36-50 | eight bytes of the oldest packet, or its rest, after which the packet leaves the queue |
| Bitmap.MarkOne | src/main.c:277 | setting the bit of a block makes that block dirty and no other |
| Bitmap.ClearOne | src/main.c:218 | clearing the bit of a block makes that block clean and no other |
| Bitmap.FirstDirtyIsLowest | src/main.c:212-228 | the scan finds the lowest dirty block, or none is dirty |
| Bitmap.ClearFirst | src/main.c:211-231 | the scan finds none exactly when all 16 bytes are zero; otherwise the block found leaves the dirty set and no other does |
| Disk.AnswerEndsWithStatus | src/commands.c:90-183 | the answer to every recognised command but WRITE ends with the 13 bytes of a status with its own tag, no residue, passed (section 5.2 of Bulk-Only Transport) |
| Disk.ReadPackets | src/commands.c:186-211 | a READ of n blocks is 64n packets of eight bytes that concatenate to the blocks, then the 13 bytes of its status in two packets |
| Disk.WriteTakesPayload | src/main.c:265-287 | a WRITE of n blocks takes exactly 64n packets; with the last one, not before, its blocks hold the payload, all else is kept, and one status is owed |
| Commands.EveryCommandAnswered | src/main.c:197-245 | over every run: the disk is what the completed WRITEs, one after the other, make of the EEPROM; every recognised command completed has exactly one answer, in order: its data as the commands before it left the disk, then one status with its own tag; what was sent is the front of these answers |
| Commands.OneAnswerEach | src/commands.c:90-217 | the answers and the recognised commands correspond one to one, tag by tag |
| Commands.LastWriteWins | src/main.c:268-274 | every byte of the disk is that of the last WRITE to it |
| Commands.ReadBack | src/commands.c:186-211 | a READ of the blocks of a WRITE is answered with its payload, whatever came before, and whatever came since without writing there |
| CbwIntake.CommandGathered | src/main.c:288-305 | for every split of a command block, the buffer grows by what was sent; it is finished exactly with the packet that brings byte 31, and equals the first 31 bytes |
| System.ReadTurn | src/commands.c:190-209 | a pass of a READ loads the next eight bytes of the blocks, and the pass that loads the last ones ends the READ with one status |
| System.SendKeeps | src/main.c:201-204 | a pass with a free IN buffer loads exactly the next packet owed and none when nothing is owed, so a loaded packet is never overwritten |
| System.PendingNone | src/main.c:201-204 | something is owed exactly while the ring is not empty or a READ is in progress |
| FlushSteps.PickKeeps | src/main.c:211-228 | taking a block out of the dirty map before it is copied keeps RAM and EEPROM coherent: the block being flushed is its excuse |
| FlushSteps.CopyKeeps | src/main.c:232-243 | copying a page removes that page's excuse; a refused page is recorded as lost |
| PacketSteps.BytesLand | src/main.c:268-274 | a data packet's bytes land at the next place of the payload, inside the RAM |
| PacketSteps.CountersAdvance | src/main.c:268-287 | the 64th packet of a block, and no other, marks it dirty; the last one ends the phase and queues one status; both counters stay in range |
| PacketSteps.DataCoherent | src/main.c:267-279 | new data keeps RAM and EEPROM coherent even when it hits the block being flushed |
| PacketSteps.TakeDataKeeps | src/main.c:265-287 | after every data packet the device still agrees with the plain disk |
| PacketSteps.ExecuteKeeps | src/commands.c:74-184 | a complete command block leaves the device owing exactly the plain disk's answer |
| PacketSteps.RepliesAgree | src/commands.c:90-184 | the code's reply to every opcode, buffer, length and what it leaves behind, is the plain disk's |
| PacketSteps.PacketKeeps | src/main.c:265-306 | every packet of an obedient host, in any phase, keeps device and plain disk in step |
| Runs.TurnKeeps | src/main.c:197-245 | one pass of the main loop, with or without a packet, a free IN buffer, a willing EEPROM, keeps all invariants |
| Runs.RunKeeps | src/main.c:197-245 | so does every run |
| Runs.EveryRun | src/main.c:197-245 | from power-up on: the packets sent are the plain disk's answers in order, and each RAM byte is in the EEPROM unless one of four reasons holds |
| Runs.OneLoadPerTurn | src/main.c:200-204 | a ready pass loads exactly the next packet owed, if any; a pass that is not ready loads none |
| Runs.FlushWorks | src/main.c:209-244 | five per dirty block plus the pages left of the current one goes down by exactly one per flush step, and is zero exactly when the flush rests |
| Runs.IdleTurn | src/main.c:197-245 | every pass that takes no data packet, whatever command packet comes and whether or not the IN buffer is free, takes exactly one off that measure and leaves the disk as it is |
| Runs.IdleRun | src/main.c:197-245 | so any run without data packets flushes every block in as many passes as the measure says |
| Runs.QuietRun | src/main.c:197-204 | while the host only listens, the device sends one packet per pass with a free IN buffer until it owes nothing, however many busy passes lie between |
| Runs.CommandAnswered | src/commands.c:74-211 | however far the flush is, a complete command is answered with exactly the plain disk's answer, in as many free IN buffers as it has packets |
| Runs.WriteAnswered | src/main.c:275-286 | the last data packet of a WRITE is answered with the status of that WRITE in two free IN buffers, and the disk then holds its payload |
| Runs.RestIsClean | src/main.c:209-244 | whenever the flush rests, EEPROM and disk differ at most in refused pages and in what has come of an unfinished WRITE |
| Runs.PowerUpHolds | src/main.c:165-175 | the state after boot satisfies all invariants |
| PowerCycle.SurvivesPowerCycle | src/main.c:165-175 | outside the data packets of a WRITE, after enough passes with a working bus, whatever commands the host goes on sending and however busy the IN buffer is: the EEPROM holds the disk, and the next power-up starts from it, if and only if each refused page that the flush will not copy again was in it all the same; every other refused page is repaired |
| PowerCycle.NothingStranded | src/main.c:209-244 | so it does whenever every refused page is in a block that is dirty again or is still to be copied |
| PowerCycle.StepOnlyWaiting | src/main.c:232-243 | after a flush step that the EEPROM takes, all that differs waits to be copied if and only if it did before |
| Refused.AlwaysSavesIff | src/main.c:232-243 | the four passes over a block save it, whatever RAM and EEPROM held, if and only if the EEPROM took all four pages |
| Refused.BlockFate | src/main.c:232-243 | in every run in which no data packet goes to a clean block, each byte of it that was still to be copied ends as the EEPROM answered at the one pass of its page, and is never tried again |
| Refused.BlockSavedIff | src/main.c:232-243 | in every such run a flushed block is in the EEPROM, and stays there, if and only if each of its pages was taken or was there before |
| Refused.NothingSaved | src/main.c:238 | while the EEPROM refuses everything, no run changes it |
| Limits.ReadPackets | src/commands.c:190-209 | for every address and length, in range or not, packet k of a READ is the eight bytes at its address modulo 64 KiB |
| Limits.ReadEnds | src/commands.c:199-206 | the status follows after length blocks, or after 65536 when the length is zero |
| Limits.ReadLengthIff | src/commands.c:199-201 | a READ ends after the blocks asked for if and only if at least one was asked for |
| Limits.ReadModulo | src/commands.c:159-195 | for every 32-bit address and every length, block j of the answer to a READ is block (address + j) modulo 128; so a READ of block 128, which READ CAPACITY names as the last one, is block 0 |
| Limits.ReadAsAskedIff | src/commands.c:120-131 | a READ of at least one block sends the blocks asked for if and only if address + length <= 128 |
| Limits.WriteModulo | src/main.c:267-274 | for every 32-bit address, the first block of a WRITE lands at its address modulo 128; at block 128 it overwrites block 0 |
| Limits.WriteAsAskedIff | src/main.c:267-274 | whatever its data, the first block of a WRITE touches no block but the one asked for, if and only if its 32-bit address is below 128 |
| Host.ReadSends | src/commands.c:159-195 | for every 32-bit number l and 16-bit number n whose digits to base 256 stand in bytes 17 to 20 and 22 to 23, READ sends block (l + j) modulo 128 as block j, for all n blocks |
| Host.ReadDone | src/commands.c:199-206 | and then queues the 13 bytes of its status |
| Host.WriteLands | src/commands.c:170-175 | a WRITE on the disk, so addressed: after its 64n data packets the RAM holds the payload from byte 512l on and is unchanged elsewhere, and one status is owed |
| Host.BlockAsks | src/commands.c:159-175 | every address and length can be put into a command block |
| Host.CommandArrives | src/main.c:288-305 | the host may send any command block on the disk once it was answered, in four packets, and with the fourth it takes effect |
| Host.StatusAlone | src/commands.c:116-119 | opcodes 0x00, 0x1b and 0x1e get their status and no data |
| Host.Capacity | src/commands.c:120-131 | opcode 0x25 gets eight bytes, the numbers 128 and 512, most significant byte first, and the status |
| Host.Inquiry | src/commands.c:90-114 | opcode 0x12 gets its 36 bytes and the status |
| Host.ModeSense | src/commands.c:132-155 | opcode 0x1a gets 35 bytes, 14 of its own, and the status |
| Host.FormatCapacities | src/commands.c:179-183 | opcode 0x23 gets four zeros and the status |
| Host.ReadAnswered | src/commands.c:159-169 | opcode 0x28 on the disk gets the blocks asked for and the status |
| Host.NoAnswer | src/commands.c:170-183 | opcode 0x2a has no answer before its data, and every other opcode none at all |
| Firmware.Firmware.constructor | src/main.c:23-45 | the globals before main |
| Firmware.Firmware.UsbFunctionWriteOut | src/main.c:265-306 | a packet, data of a WRITE or part of a command block, does to all globals what the model says, inside the bounds of every array |
| Firmware.Firmware.SendNextData | src/usbdata.c:26-51 | the ring of pointers, seen through its buffers, sends what the model's queue sends |
| Firmware.Firmware.ExecuteRead | src/commands.c:186-211 | one packet of a READ, the block and packet counters, and the status after the last block |
| Firmware.Firmware.SendTurn | src/main.c:201-204 | both senders in one ready pass, what they hand over in order |
| Firmware.ModeReply | src/commands.c:134-151 | 14 bytes are set and the rest of the buffer is left as it was, because the loop writes one byte over and over |
| Firmware.Firmware.ExecuteCbw | src/commands.c:74-184 | a complete command block does to all globals what the model says |
| Firmware.Firmware.PickBlock | src/main.c:211-228 | the nested scan claims the lowest dirty block and clears exactly its bit |
| Firmware.Firmware.StorePage | src/main.c:238 | a page goes to the EEPROM whole if no step of the bus failed, and not at all otherwise |
| Firmware.Firmware.CopyPage | src/main.c:233-243 | 128 bytes of the block are copied, unless a step of the bus failed, and the fourth page ends the block |
| Firmware.PageAllOrNothing | src/ext_eeprom.c:163-175 | the flush's page write is a single turn of the split loop |
| Firmware.PageCuts | src/main.c:238 | the flush's arguments meet the page condition |
| Firmware.Firmware.MainTurn | src/main.c:197-245 | one pass of the main loop changes all globals, RAM and EEPROM, and hands packets to the driver, exactly as one turn of the model whose EEPROM answers if and only if no step of the bus failed |
| Firmware.Firmware.Boot | src/main.c:165-174 | 2048 reads of 32 bytes make RAM equal to the EEPROM, if and only if no step of the bus failed |
| Refinement.InvInBounds | src/main.c:276-277 | the invariants keep the block number inside the map and the ring far from full |
| Refinement.PowerOn | src/main.c:153-175 | construction and boot on a working bus give the start of the runs |
| Refinement.ObedientTurn | src/main.c:197-245 | with an obedient host, the code's own pass is a step of a run: invariants kept, packets handed over appended to those sent, at most one |
| Joint.BusKeeps | src/usbdrv/asmcommon.inc:54-175 | an interrupt between any two steps keeps disk and driver joined |
| Joint.DriverKeeps | src/usbdrv/usbdrv.c:568-593 | so does every step of the driver: an OUT packet processed is the packet of the next pass, a call completed is the packet that pass sent |
| Joint.PassKeeps | src/main.c:200-245 | so does a pass of the main loop, guarded by usbInterruptIsReady |
| Joint.ObedientIsLegal | src/main.c:200-204 | a host that heard on the bus everything it is owed was sent everything: what it may do, judged by what it hears, is what it may do |
| Joint.EndToEnd | src/main.c:197-245 | over every interleaving from power-up: the OUT packets that the bus saw acknowledged reach the disk exactly once and in order, but for at most two still inside; the data of the frames that left on endpoint 1 is the front of the answers to the commands they make up, each packet once and in order |
| Live.PassComes | src/main.c:197-204 | whatever comes on the bus, the main loop's next pass is due within 42 steps of the main program |
| Live.SettleRun | src/usbdrv/usbdrv.c:568-593 | with nothing but tokens and handshakes on the bus, within 57 steps every packet acknowledged is processed and taken by a pass |
| Live.RoundHears | src/main.c:201-204 | from then on, 43 steps and an IN token on endpoint 1 take the host at least one packet further, if it is owed one |
| Live.AllHeard | src/main.c:201-204 | as many such rounds as packets are unheard, and the host has heard every answer |
| Live.EverythingHeard | src/main.c:197-245 | after any interleaving from power-up, such a calm and such rounds: the passes took exactly the OUT packets that the bus saw acknowledged, and the frames that left on endpoint 1 carry exactly the answers to the commands they make up |
| Live.BufferFrees | src/usbdrv/usbdrv.c:568-588 | whatever comes on the bus, within 43 steps of the main program there is a moment when the receive buffer is free |
| Live.OutPacketTaken | src/usbdrv/asmcommon.inc:104-127 | from any reachable state: after 57 steps without data an OUT token and a data packet are answered with ACK, and 57 steps later a pass has taken just that packet, behind all acknowledged before |
| LiveControl.ReplyHeard | src/usbdrv/usbdrv.c:525-547 | there are as many replies as SETUPs acknowledged, and after as many rounds of 29 steps and an IN token as the newest has packets unsent, the last frames on endpoint 0 are that reply, packet by packet |
| Wire.Identifiers | src/usbdrv/usbdrv.h:641-648 | the packet identifiers are those of table 8-1 of USB 2.0: the type, and its complement in the high nibble |
| Wire.DataAnswered | src/usbdrv/asmcommon.inc:104-127 | a data packet is answered with ACK if and only if a token announced it and the receive buffer is free, with NAK if and only if the buffer is taken, and not at all otherwise; with data in it, it is stored exactly when it is acknowledged |
| Wire.TokenAnnounces | src/usbdrv/asmcommon.inc:66-99 | a whole SETUP or OUT token of this device, for each of the 16 endpoints, announces data; any other token calls it off; none is answered |
| Wire.OthersIgnored | src/usbdrv/asmcommon.inc:42-47 | a packet too long, a token for another device and any other packet get no answer and call off the data announced |
| Wire.InAnswered | src/usbdrv/asmcommon.inc:129-175 | an IN token gets the bytes of the buffer of its endpoint, 0 or any other, if and only if a packet waits there and the receive buffer is free, and a handshake otherwise |
| Wire.AnswerIsLogged | src/usbdrv/asmcommon.inc:129-175 | whatever arrives: the data packet that leaves is the one entry its endpoint's history grows by, and no other answer touches the histories |
| Wire.AnswerIsWhole | src/usbdrv/asmcommon.inc:129-175 | in every reachable state, the frame that leaves is the whole packet of the last call, or the next packet of the newest reply |
| Wire.FramePasses | src/usbdrv/usbdrvasm.S:264-268 | every such frame passes the host's CRC check (section 8.3.5.2 of USB 2.0) |
| Wire.HistoriesShow | src/usbdrv/asmcommon.inc:54-175 | in every interleaving, the frames of the histories are those that left and the packets acknowledged those answered with ACK |
| Wire.GuardedOnTheBus | src/main.c:201-204 | with the guard, frame i that leaves on endpoint 1 is the whole packet of call i, at most one still to come |
| Wire.ReplyOnTheBus | src/usbdrv/usbdrv.c:525-547 | a finished reply is the last frames that left on endpoint 0, packet by packet |
| UsbReceive.InterruptKeepsRx | src/usbdrv/asmcommon.inc:54-127 | whatever arrives, the half being read is left alone and the stored packet stays the one acknowledged |
| UsbReceive.MainKeepsRx | src/usbdrv/usbdrv.c:568-588 | so does every step of the main program |
| UsbControl.PacketsOfReply | src/usbdrv/usbdrv.c:530-540 | n bytes are n / 8 full packets and a shorter last one |
| UsbControl.PacketsJoin | src/usbdrv/usbdrv.c:530-540 | they concatenate to the reply |
| UsbControl.InterruptKeepsControl | src/usbdrv/asmcommon.inc:129-151 | an IN token sends the packet in the buffer at most once, and never while a packet is unprocessed |
| UsbControl.MainKeepsControl | src/usbdrv/usbdrv.c:438-471 | the main program's steps keep the buffer that of the newest reply, or closed |
| UsbBulkIn.InterruptKeepsBulk | src/usbdrv/asmcommon.inc:163-175 | an IN token on endpoint 1 takes a whole packet or gets a handshake |
| UsbBulkIn.MainKeepsBulk | src/usbdrv/usbdrv.c:219-241 | usbSetInterrupt closes the buffer before it copies and opens it when the packet is complete; a call that finds a packet waiting ends with that packet lost or its PID repeated |
| UsbBulkIn.SendLate | src/usbdrv/usbdrv.c:228-239 | such a call, at its end: the waiting packet was never sent, or the new one carries the PID of the last one sent |
| UsbRuns.AckMeansStored | src/usbdrv/asmcommon.inc:104-127 | a data packet with data is acknowledged exactly when it is stored, with its own bytes and token; nothing else is stored |
| UsbRuns.EveryPacketOnce | src/usbdrv/usbdrv.c:568-588 | in every interleaving, packets acknowledged are packets processed plus at most one, in order, and the half being read is not the half selected for reception |
| UsbRuns.NothingStale | src/usbdrv/usbdrv.c:438-471 | in every interleaving, each data packet on endpoint 0 is the next packet of the reply to the SETUP acknowledged last |
| UsbRuns.ReplyIsGiven | src/usbdrv/usbdrv.c:438-471 | the reply that goes out is the one the request was given |
| UsbRuns.ReplySentWhole | src/usbdrv/usbdrv.c:525-547 | a finished reply of n bytes went out as n / 8 + 1 packets that concatenate to it, PIDs alternating from DATA1 (section 8.5.3 of USB 2.0) |
| UsbRuns.NeverHalfCopied | src/usbdrv/usbdrv.c:219-241 | in every interleaving, guarded or not, a frame on endpoint 1 is the whole packet of one call, and later frames come from later calls |
| UsbRuns.GuardedSendsOnce | src/main.c:201-204 | called only when usbInterruptIsReady, each packet leaves exactly once and in order, PIDs alternating since the last reset of the toggling (section 8.6 of USB 2.0) |
| UsbRuns.ResetRestarts | src/usbdrv/usbdrv.c:195-200 | a request that resets the toggling makes the next call's packet leave with DATA0, unless one was waiting; nothing else in the main program does |
| UsbRuns.SoundIff | src/usbdrv/usbdrv.c:219-241 | in every interleaving, guarded or not, at every moment between calls each packet leaves exactly once, in order, with alternating PIDs, if and only if every call found the buffer free |
| UsbAlone.CallAlone | src/usbdrv/usbdrv.c:219-241 | the machine's steps of one undisturbed call end in the closed form |
| UsbAlone.PollAlone | src/usbdrv/usbdrv.c:568-593 | the machine's steps of one undisturbed usbPoll end in the closed form |
| UsbDriver.LimitReply | src/usbdrv/usbdrv.c:464-471 | the reply is cut to the smaller of its length and wLength, for every 16-bit wLength |
| UsbDriver.WordIs | src/usbdrv/usbdrv.c:464-471 | wLength is read with its low byte first, for every 16-bit value |
| UsbDriver.Driver.constructor | src/usbdrv/usbdrv.c:610-626 | after usbInit the machine is in its initial state |
| UsbDriver.Driver.HandleData | src/usbdrv/asmcommon.inc:104-127 | the code's data handling is the machine's, answer included |
| UsbDriver.Driver.HandleIn | src/usbdrv/asmcommon.inc:129-175 | the code's IN handling is the machine's, answer included |
| UsbDriver.Driver.Se0 | src/usbdrv/asmcommon.inc:54-127 | a whole interrupt is one step of the machine |
| UsbDriver.Driver.SetInterrupt | src/usbdrv/usbdrv.c:219-241 | an undisturbed usbSetInterrupt leaves a complete frame, toggled only if the buffer was free |
| UsbDriver.Driver.DeviceRead | src/usbdrv/usbdrv.c:491-518 | the next bytes of the message are copied and taken off it |
| UsbDriver.Driver.BuildTxBlock | src/usbdrv/usbdrv.c:525-547 | the next packet of the message stands complete in the buffer, and a short one ends the message |
| UsbDriver.Driver.ProcessRx | src/usbdrv/usbdrv.c:421-484 | a received packet is processed as the machine says; the reply is the message cut to wLength; OUT data reaches usbFunctionWriteOut unchanged |
| UsbDriver.Driver.Poll | src/usbdrv/usbdrv.c:568-593 | an undisturbed usbPoll is the machine's |

## Left out

- `UsbMachine` keeps the shared variables as values: the C routines are not atomic, so the interleaving cannot be a run of methods. `UsbDriver` has the same routines in place, undisturbed.
- TWI registers and busy-waits (`src/twi.c`): each bus step succeeds or fails, at the choice of the environment.
- The EEPROM's write time: a chip that is still busy is a bus that fails.
- Bit sampling, bit stuffing and sync of the receiver and sender (`src/usbdrv/usbdrvasm12.inc` and its siblings): packets arrive and leave whole.
- The device address: whether a token's address matches is an input of the interrupt.
- Descriptors, requests and their handlers: the reply to a SETUP is an arbitrary message of at most 254 bytes, and whether it resets the toggling of endpoint 1 is an input.
- The 16-bit `int` of the compiler: `BLOCK_SIZE * write_block` at src/main.c:236 and 238 overflows a signed one for blocks from 64 on; addresses are taken modulo 65536, which is what the machine computes.
- The default reply of `usbDriverSetup`, which is written to `usbTxBuf[9..10]` and sent from there (src/usbdrv/usbdrv.c:363-379): replies are values here, and a packet of at most two data bytes does not reach these two places before they are read.
- USB reset, line sampling, frame length measurement, LEDs, watchdog, delays and the debug UART: input, output and timing only.
- Configurations that are switched off: endpoint 3, halt, flow control, the user's own read and write functions, CRC and toggle checks on reception.
- `usbMsgPtr` into flash memory: messages in flash and in RAM are both byte strings.
- Variables that are only written: `writing_finished`, `write_eeprom`, `transfer_length_write_beginning`, `index`.
- READ and WRITE outside the disk and zero-length WRITE: excluded by `Disk.InRange`, because the dirty map has 128 bits and the code does not check; `Limits` says what a READ sends and where the first block of a WRITE lands. Behind that first block the code sets a bit outside the map, which is not modelled.
- Short data packets in a WRITE: excluded by `Disk.MaySend`; the code stores eight bytes whatever the length.
- Opcodes the code does not know: it never answers them, and the host of this model is not owed an answer.
- `usb_send_data` with 99 packets outstanding: excluded by its precondition; `PacketRing.HundredthPacketEmptiesRing` says what happens.
- Firmware.Firmware.MainTurn: does not run the driver; the received packet and the free IN buffer are its inputs, and what it hands to `usbSetInterrupt` its result.
- Firmware.Firmware.Boot: says nothing about RAM when a read fails; the code does not look at the result.
- The shifts by 24 and 16 of a 16-bit operand at src/commands.c:160 and 174: taken to drop the upper half of the block address.
- RAM is a byte sequence in `Firmware`; that the port writes of `src/ram.c` make it one is proved in `RamPins`.
- ExtEeprom.Eeprom.WriteBlock: does not cover the arguments on which its loop has no end, which `LoopEnds.LoopEndsIff` names. The result for an empty block, which the code never sets, is arbitrary. The comment at src/ext_eeprom.c:140 promises that every block goes on at address 0; `PageSplit.WritesExactlyIff` says which blocks do.
- ExtEeprom.Eeprom.ReadBlock: does not cover the lengths on which its loop has no end, no byte and more than 256 (`LoopEnds.ReadEndsIff`).
