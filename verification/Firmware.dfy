/** src/main.c and src/commands.c as they are: globals and static buffers changed in place.
    Every routine is proved to do to the globals what Device says. */
module Firmware {
  import opened Bytes
  import opened Bitmap
  import opened PacketRing
  import opened ExtEeprom
  import opened PageSplit
  import D = Device

  /** `data_cmp` against a constant. */
  method DataCmp(data: array<byte>, pattern: seq<byte>, length: nat) returns (equal: bool)
    requires length <= data.Length && length <= |pattern|
    ensures equal <==> data[..length] == pattern[..length]
  {
    for i := 0 to length
      invariant data[..i] == pattern[..i]
    {
      if data[i] != pattern[i] {
        assert data[..length][i] != pattern[..length][i];
        return false;
      }
    }
    return true;
  }

  /** `data_cpy`, between different buffers. */
  method DataCpy(dest: array<byte>, to: nat, src: array<byte>, from: nat, length: nat)
    requires dest != src && to + length <= dest.Length && from + length <= src.Length
    modifies dest
    ensures dest[..] == Splice(old(dest[..]), to, src[from..from + length])
  {
    for i := 0 to length
      invariant dest[..] == Splice(old(dest[..]), to, src[from..from + i])
    {
      dest[to + i] := src[from + i];
    }
  }

  /** The constant strings of the code are copied the same way. */
  method DataCpyConst(dest: array<byte>, to: nat, src: seq<byte>)
    requires to + |src| <= dest.Length
    modifies dest
    ensures dest[..] == Splice(old(dest[..]), to, src)
  {
    for i := 0 to |src|
      invariant dest[..] == Splice(old(dest[..]), to, src[..i])
    {
      dest[to + i] := src[i];
    }
    assert src[..|src|] == src;
  }

  method NewBuffer(length: nat) returns (b: array<byte>)
    ensures fresh(b) && b.Length == length && b[..] == D.Zeros(length)
  {
    b := new byte[length](_ => 0);
  }

  /** The static buffers of the program, all zero. */
  method NewBuffers()
    returns (bits: array<byte>, block: array<byte>, tag: array<byte>, status: array<byte>,
             reply: array<byte>, zeros: array<byte>, page: array<byte>)
    ensures fresh(bits) && bits.Length == MAP_BYTES && bits[..] == D.Zeros(MAP_BYTES)
    ensures fresh(block) && block.Length == D.CBW_SIZE && block[..] == D.Zeros(D.CBW_SIZE)
    ensures fresh(tag) && tag.Length == 4 && tag[..] == D.Zeros(4)
    ensures fresh(status) && status.Length == D.CSW_LENGTH && status[..] == D.Zeros(D.CSW_LENGTH)
    ensures fresh(reply) && reply.Length == D.DATA_LENGTH && reply[..] == D.Zeros(D.DATA_LENGTH)
    ensures fresh(zeros) && zeros.Length == 8 && zeros[..] == D.Zeros(8)
    ensures fresh(page) && page.Length == D.PAGE_SIZE && page[..] == D.Zeros(D.PAGE_SIZE)
    ensures bits !in {block, tag, status, reply, zeros, page} && block !in {tag, status, reply, zeros, page}
    ensures tag !in {status, reply, zeros, page} && status !in {reply, zeros, page}
    ensures reply !in {zeros, page} && zeros != page
  {
    bits := NewBuffer(MAP_BYTES);
    block := NewBuffer(D.CBW_SIZE);
    tag := NewBuffer(4);
    status := NewBuffer(D.CSW_LENGTH);
    reply := NewBuffer(D.DATA_LENGTH);
    zeros := NewBuffer(8);
    page := NewBuffer(D.PAGE_SIZE);
  }

  // ------------------------------------------------------- the reply buffer's contents

  method ZeroReply(data: array<byte>)
    requires data.Length == D.DATA_LENGTH
    modifies data
    ensures data[..] == D.Zeros(8) + old(data[8..])
  {
    for i := 0 to 8
      invariant data[..] == D.Zeros(i) + old(data[i..])
    {
      data[i] := 0;
    }
  }

  /** The answer to INQUIRY. */
  method InquiryReply(data: array<byte>)
    requires data.Length == D.DATA_LENGTH
    modifies data
    ensures data[..] == D.InquiryData()
  {
    InquiryHeader(data);
    DataCpyConst(data, 8, [0x48, 0x65, 0x4b, 0x61]);
    Blanks(data, 12, 16);
    DataCpyConst(data, 16, [0x44, 0x49, 0x43, 0x20, 0x64, 0x72, 0x69, 0x76]);
    DataCpyConst(data, 24, [0x65]);
    Blanks(data, 25, 32);
    DataCpyConst(data, 32, [0x30, 0x2e, 0x30, 0x31]);
  }

  method InquiryHeader(data: array<byte>)
    requires data.Length == D.DATA_LENGTH
    modifies data
    ensures data[..8] == [0x00, 0x80, 0x00, 0x02, 0x1f, 0, 0, 0]
  {
    data[0], data[1], data[2], data[3] := 0x00, 0x80, 0x00, 0x02;
    data[4], data[5], data[6], data[7] := 0x1f, 0, 0, 0;
  }

  method Blanks(data: array<byte>, from: nat, to: nat)
    requires from <= to <= data.Length
    modifies data
    ensures data[..] == Splice(old(data[..]), from, D.Spaces(to - from))
  {
    for i := from to to
      invariant data[..] == Splice(old(data[..]), from, D.Spaces(i - from))
    {
      data[i] := 0x20;
    }
  }

  method CapacityReply(data: array<byte>)
    requires data.Length == D.DATA_LENGTH
    modifies data
    ensures data[..] == [0, 0, 0, 128, 0, 0, 2, 0] + old(data[8..])
  {
    data[0], data[1], data[2], data[3] := 0, 0, 0, 128;
    data[4], data[5], data[6], data[7] := 0, 0, 2, 0;
  }

  /** The loop of the source writes the same byte over and over: the rest of the buffer is
      sent as an earlier command left it. */
  method ModeReply(data: array<byte>)
    requires data.Length == D.DATA_LENGTH
    modifies data
    ensures data[..] == D.MODE_PARAMETERS + old(data[14..])
  {
    ModeHeader(data);
    for i := 12 to 0x23
      invariant data[..13] == D.MODE_PARAMETERS[..13] && data[14..] == old(data[14..])
      invariant i > 12 ==> data[13] == 0
    {
      data[13] := 0x00;
    }
    assert D.MODE_PARAMETERS == D.MODE_PARAMETERS[..13] + [0];
  }

  method ModeHeader(data: array<byte>)
    requires data.Length == D.DATA_LENGTH
    modifies data
    ensures data[..13] == D.MODE_PARAMETERS[..13] && data[13..] == old(data[13..])
  {
    data[0], data[1], data[2], data[3] := 0x35, 0x00, 0x00, 0x00;
    data[4], data[5], data[6], data[7] := 0x05, 0x1e, 0xf0, 0x00;
    data[8], data[9], data[10], data[11], data[12] := 0xff, 0x20, 0x00, 0x1c, 0xfc;
  }

  class Firmware {
    // chips
    var ram: seq<byte>
    const chip: Eeprom

    // src/usbdata.c
    const ring: Ring

    // src/main.c
    const blocksWritten: array<byte>
    var writeBlock: int
    var flushCount: nat
    var cbwProgress: bool
    var cbwFinished: bool
    const cbw: array<byte>
    var indexWrite: nat
    var isWriting: bool
    var isWritingBeginning: bool
    var write: nat
    var count: nat
    var writePage: nat
    var transferLengthWrite: nat

    // src/commands.c
    const cbwTag: array<byte>
    const csw: array<byte>
    const data: array<byte>
    const dataNull: array<byte>
    const dataRw: array<byte>
    var readCount: nat
    var read: nat
    var shouldRead: bool
    var logicalBlock: nat
    var transferLength: nat
    var transferLengthBeginning: nat

    /** The static buffers. */
    ghost function Statics(): set<object> {
      {blocksWritten, cbw, cbwTag, csw, data, dataNull, dataRw}
    }

    ghost predicate Distinct() {
      && blocksWritten !in {cbw, cbwTag, csw, data, dataNull, dataRw}
      && cbw !in {cbwTag, csw, data, dataNull, dataRw}
      && cbwTag !in {csw, data, dataNull, dataRw}
      && csw !in {data, dataNull, dataRw} && data !in {dataNull, dataRw} && dataNull != dataRw
      && (ring.packets as object) !in Statics() && (ring.packetLength as object) !in Statics()
    }

    /** The ring points only into the three reply buffers. */
    ghost predicate Known(q: seq<Packet>) {
      forall i :: 0 <= i < |q| ==> q[i].data in {data, csw, dataNull} && q[i].length <= q[i].data.Length
    }

    /** The ring is sound, and what it points to is known. */
    ghost predicate RingValid()
      reads ring, ring.packets, ring.packetLength
    {
      ring.Valid() && Known(ring.Queue())
    }

    ghost predicate Valid()
      reads this, chip, ring, ring.packets, ring.packetLength, Statics()
    {
      && |ram| == D.RAM_SIZE && chip.Valid() && Distinct() && RingValid()
      && blocksWritten.Length == MAP_BYTES && cbw.Length == D.CBW_SIZE && cbwTag.Length == 4
      && csw.Length == D.CSW_LENGTH && data.Length == D.DATA_LENGTH && dataNull.Length == 8
      && dataRw.Length == D.PAGE_SIZE && dataNull[..] == D.Zeros(8)
      && -1 <= writeBlock < BLOCKS && flushCount < 4 && indexWrite <= D.CBW_SIZE
      && write < 0x1_0000 && count < 0x1_0000 && writePage < 0x100 && transferLengthWrite < 0x100
      && readCount < 0x1_0000 && read < 0x1_0000 && logicalBlock < 0x1_0000
      && transferLength < 0x1_0000 && transferLengthBeginning < 0x1_0000
    }

    // ------------------------------------------------------- the state as a value

    function BufferName(b: array<byte>): D.Buffer {
      if b == data then D.DataBuffer else if b == csw then D.CswBuffer else D.NullBuffer
    }

    ghost function Names(q: seq<Packet>): (n: seq<D.Queued>)
      ensures |n| == |q|
      ensures forall i :: 0 <= i < |q| ==> n[i] == D.Queued(BufferName(q[i].data), q[i].length)
    {
      if q == [] then [] else [D.Queued(BufferName(q[0].data), q[0].length)] + Names(q[1..])
    }

    ghost function StoreNow(): (s: D.Store)
      requires Valid()
      reads this, chip, ring, ring.packets, ring.packetLength, Statics()
      ensures s.Valid()
    {
      D.Store(ram, chip.mem, blocksWritten[..], writeBlock, flushCount)
    }

    ghost function IntakeNow(): (i: D.Intake)
      requires Valid()
      reads this, chip, ring, ring.packets, ring.packetLength, Statics()
      ensures i.Valid()
    {
      D.Intake(cbwProgress, cbwFinished, cbw[..], indexWrite)
    }

    ghost function WritingNow(): D.Writing
      reads this
    {
      D.Writing(isWriting, isWritingBeginning, write, count, writePage, transferLengthWrite)
    }

    ghost function ReadingNow(): D.Reading
      reads this
    {
      D.Reading(shouldRead, readCount, read, transferLength, transferLengthBeginning)
    }

    ghost function OutNow(): (o: D.Outgoing)
      requires RingValid() && data.Length == D.DATA_LENGTH && csw.Length == D.CSW_LENGTH && dataNull.Length == 8
      reads ring, ring.packets, ring.packetLength, data, csw
      ensures o.Valid()
    {
      D.Outgoing(Names(ring.Queue()), if ring.Queue() == [] then 0 else ring.Done(), data[..], csw[..])
    }

    ghost function State(): (d: D.Device)
      requires Valid()
      reads this, chip, ring, ring.packets, ring.packetLength, Statics()
      ensures d.Valid()
    {
      D.Device(StoreNow(), IntakeNow(), WritingNow(), ReadingNow(), OutNow(), cbwTag[..], logicalBlock)
    }

    /** The globals before `main`, in front of an EEPROM with the given contents. */
    constructor (contents: seq<byte>)
      requires |contents| == EEPROM_SIZE
      ensures fresh(chip) && chip.mem == contents && chip.failed == 0 && RingValid() && ring.Queue() == []
      ensures Valid()
      ensures State() == D.Device(
                           D.Store(D.Zeros(D.RAM_SIZE), contents, D.Zeros(MAP_BYTES), -1, 0),
                           D.Intake(false, false, D.Zeros(D.CBW_SIZE), 0),
                           D.Writing(false, false, 0, 0, 0, 0), D.Reading(false, 0, 0, 0, 0),
                           D.Outgoing([], 0, D.Zeros(D.DATA_LENGTH), D.Zeros(D.CSW_LENGTH)), D.Zeros(4), 0)
    {
      var eeprom := new Eeprom(contents);
      var bits, block, tag, status, reply, zeros, page := NewBuffers();
      ram, chip := D.Zeros(D.RAM_SIZE), eeprom;
      blocksWritten, cbw, cbwTag := bits, block, tag;
      csw, data, dataNull, dataRw := status, reply, zeros, page;
      ring := new Ring(zeros);
      writeBlock, flushCount := -1, 0;
      cbwProgress, cbwFinished, indexWrite := false, false, 0;
      isWriting, isWritingBeginning, write, count, writePage, transferLengthWrite := false, false, 0, 0, 0, 0;
      readCount, read, shouldRead := 0, 0, false;
      logicalBlock, transferLength, transferLengthBeginning := 0, 0, 0;
    }

    // ---------------------------------------------------------------- src/ram.c

    method RamWriteByte(addr: nat, b: byte)
      requires Valid()
      modifies this`ram
      ensures Valid() && ram == old(ram)[D.Wrap16(addr) := b]
    {
      ram := ram[D.Wrap16(addr) := b];
    }

    method RamReadByte(addr: nat) returns (b: byte)
      requires Valid()
      ensures b == ram[D.Wrap16(addr)]
    {
      b := ram[D.Wrap16(addr)];
    }

    // ------------------------------------------------------------ the status

    method CreateBasicCsw()
      requires Valid()
      modifies csw
      ensures Valid() && csw[..] == D.Csw(cbwTag[..])
    {
      hide Names, RingValid;
      DataCpyConst(csw, 0, D.CSW_SIGNATURE);
      DataCpy(csw, 4, cbwTag, 0, 4);
      csw[8] := 0;
      for i := 8 to 12
        invariant csw[..8] == D.CSW_SIGNATURE + cbwTag[..]
        invariant csw[8..i] == D.Zeros(i - 8)
      {
        csw[i] := 0;
      }
      csw[12] := 0;
    }

    /** `usb_send_data` of a reply buffer. */
    method QueueData(buffer: array<byte>, length: nat)
      requires Valid() && |OutNow().queue| < BUFFER_SIZE - 1
      requires buffer in {data, csw, dataNull} && length <= buffer.Length
      modifies ring`indexIn, ring.packets, ring.packetLength
      ensures Valid()
      ensures State() == old(State()).(out := D.SendData(old(OutNow()), BufferName(buffer), length))
    {
      hide Names;
      ghost var q := ring.Queue();
      ring.SendData(buffer, length);
      assert Names(ring.Queue()) == Names(q) + [D.Queued(BufferName(buffer), length)];
    }

    method StatusBuffer()
      requires Valid()
      modifies csw
      ensures Valid()
      ensures State() == old(State()).(out := old(OutNow()).(csw := D.Csw(old(cbwTag[..]))))
    {
      hide D.Csw, Names, Known, Ring.Valid, Ring.Queue, Ring.Done;
      CreateBasicCsw();
    }

    /** The two calls that end every command; `execute_writing_finished` is no more. */
    method QueueStatus()
      requires Valid() && |OutNow().queue| < BUFFER_SIZE - 1
      modifies csw, ring`indexIn, ring.packets, ring.packetLength
      ensures Valid()
      ensures State() == old(State()).(out := D.SendStatus(old(OutNow()), old(cbwTag[..])))
    {
      hide D.Csw, Names, Known, Ring.Valid, Ring.Queue, Ring.Done;
      StatusBuffer();
      QueueData(csw, D.CSW_LENGTH);
    }

    // --------------------------------------------------------- usbFunctionWriteOut

    method SetWriting(writeInt: nat, length: nat)
      requires Valid() && writeInt < 0x1_0000
      modifies this`isWriting, this`write, this`count, this`transferLengthWrite
      ensures Valid()
      ensures
        WritingNow() ==
        old(WritingNow()).(active := true, write := writeInt, count := 0, length := length % 0x100)
    {
      hide Names, Distinct, RingValid, OutNow, D.Device.Valid, D.Outgoing.Valid, D.Store.Valid, D.Intake.Valid;
      isWriting := true;
      write := writeInt;
      count := 0;
      transferLengthWrite := length % 0x100;
    }

    method SetWritingBeginning()
      requires Valid()
      modifies this`isWritingBeginning, this`writePage
      ensures Valid()
      ensures WritingNow() == old(WritingNow()).(beginning := true, page := 0)
    {
      hide Names, Distinct, RingValid, OutNow, D.Device.Valid, D.Outgoing.Valid, D.Store.Valid, D.Intake.Valid;
      isWritingBeginning := true;
      writePage := 0;
    }

    /** The eight `ram_write_byte` calls of a data packet. */
    method StoreBytes(packet: array<byte>, at: nat)
      requires Valid() && packet.Length >= 8
      modifies this`ram
      ensures Valid() && ram == D.WriteRam(old(ram), at, packet[..8])
    {
      for i := 0 to 8
        invariant Valid() && ram == D.WriteRam(old(ram), at, packet[..i])
      {
        RamWriteByte(at + i, packet[i]);
        assert packet[..i + 1][..i] == packet[..i];
      }
    }

    method StorePacket(packet: array<byte>, ghost p: D.Received)
      requires Valid() && packet.Length >= 8 && p.Valid() && packet[..8] == p.data
      modifies this`ram, this`count
      ensures Valid() && State() == D.StorePacket(old(State()), p)
    {
      hide D.WriteRam, Names, Distinct, RingValid, OutNow, D.Device.Valid, D.Outgoing.Valid, D.Store.Valid,
           D.Intake.Valid;
      if count < write {
        StoreBytes(packet, logicalBlock * D.BLOCK_SIZE + count * 8 + writePage * D.BLOCK_SIZE);
        count := count + 1;
      }
    }

    method MarkBlock(block: nat)
      requires Valid() && block < BLOCKS
      modifies blocksWritten
      ensures Valid()
      ensures State() == old(State()).(store := old(StoreNow()).(dirty := Mark(old(StoreNow()).dirty, block)))
    {
      hide Mask, Names, Known, Ring.Valid, Ring.Queue, Ring.Done;
      blocksWritten[block / 8] := blocksWritten[block / 8] | Mask(block % 8);
    }

    /** The end of the data phase. */
    method FinishWrite()
      requires Valid() && |OutNow().queue| < BUFFER_SIZE - 1
      modifies this`isWriting, this`isWritingBeginning
      modifies csw, ring`indexIn, ring.packets, ring.packetLength
      ensures Valid()
      ensures State() == old(State()).(wr := old(WritingNow()).(active := false, beginning := false),
                                       out := D.SendStatus(old(OutNow()), old(cbwTag[..])))
    {
      hide D.SendStatus, Names, Distinct, RingValid, OutNow, D.Device.Valid, D.Outgoing.Valid, D.Store.Valid,
           D.Intake.Valid;
      isWriting := false;
      isWritingBeginning := false;
      QueueStatus();
    }

    method NextBlock()
      requires Valid() && (logicalBlock + writePage) % 0x100 < BLOCKS
      modifies blocksWritten, this`writePage, this`count
      ensures Valid()
      ensures
        var d := old(State());
        State() == d.(store := d.store.(dirty := Mark(d.store.dirty, (d.logicalBlock + d.wr.page) % 0x100)),
                      wr := d.wr.(page := (d.wr.page + 1) % 0x100, count := 0))
    {
      hide Mark, Names, Distinct, RingValid, OutNow, D.Device.Valid, D.Outgoing.Valid, D.Store.Valid, D.Intake.Valid;
      var block := (logicalBlock + writePage) % 0x100;
      MarkBlock(block);
      writePage := (writePage + 1) % 0x100;
      count := 0;
    }

    method BlockDone()
      requires Valid() && (logicalBlock + writePage) % 0x100 < BLOCKS && |OutNow().queue| < BUFFER_SIZE - 1
      modifies this`count, this`writePage, this`isWriting, this`isWritingBeginning
      modifies blocksWritten, csw, ring`indexIn, ring.packets, ring.packetLength
      ensures Valid() && State() == D.BlockDone(old(State()))
    {
      hide Mark, D.SendStatus, Names, Distinct, RingValid, OutNow, D.Device.Valid, D.Outgoing.Valid, D.Store.Valid,
           D.Intake.Valid;
      NextBlock();
      if writePage == transferLengthWrite {
        FinishWrite();
      }
    }

    method TakeData(packet: array<byte>, ghost p: D.Received)
      requires Valid() && packet.Length >= 8 && p.Valid() && packet[..8] == p.data
      requires isWriting && (logicalBlock + writePage) % 0x100 < BLOCKS && |OutNow().queue| < BUFFER_SIZE - 1
      modifies this`ram, this`count, this`writePage, this`isWriting, this`isWritingBeginning
      modifies blocksWritten, csw, ring`indexIn, ring.packets, ring.packetLength
      ensures Valid()
      ensures State() == D.TakeData(old(State()), p)
    {
      hide D.StorePacket, D.BlockDone, Names;
      StorePacket(packet, p);
      if count == write {
        BlockDone();
      }
    }

    /** `data_cpy` into the command block. */
    method CopyToCbw(to: nat, packet: array<byte>, length: nat, ghost p: D.Received)
      requires Valid() && packet != cbw && to + length <= D.CBW_SIZE
      requires packet.Length >= 8 && p.Valid() && packet[..8] == p.data && length <= 8
      modifies cbw
      ensures Valid()
      ensures State() == old(State()).(intake := old(IntakeNow()).(cbw := Splice(old(cbw[..]), to, p.data[..length])))
    {
      hide Names, RingValid, Splice;
      assert packet[0..length] == p.data[..length];
      DataCpy(cbw, to, packet, 0, length);
    }

    /** The first packet of a command block, if it has the signature. */
    method StartCommand(packet: array<byte>, len: nat, ghost p: D.Received)
      requires Valid() && packet.Length >= 8 && p.Valid() && packet[..8] == p.data && len == p.len
      requires packet != cbw && !cbwProgress && !cbwFinished
      modifies cbw, this`indexWrite, this`cbwProgress
      ensures Valid() && State() == old(State()).(intake := D.TakeCommand(old(IntakeNow()), p))
    {
      hide Names, Distinct, RingValid, OutNow, D.Device.Valid, D.Outgoing.Valid, D.Store.Valid, D.Intake.Valid,
           Splice;
      var signed := DataCmp(packet, D.CBW_SIGNATURE, 4);
      assert packet[..4] == p.data[..4];
      if signed {
        indexWrite := len;
        CopyToCbw(0, packet, len, p);
        cbwProgress := true;
      }
    }

    /** A later packet; the thirty-first byte completes the block. */
    method ContinueCommand(packet: array<byte>, len: nat, ghost p: D.Received)
      requires Valid() && packet.Length >= 8 && p.Valid() && packet[..8] == p.data && len == p.len
      requires packet != cbw && (cbwProgress || cbwFinished)
      modifies cbw, this`indexWrite, this`cbwProgress, this`cbwFinished
      ensures Valid() && State() == old(State()).(intake := D.TakeCommand(old(IntakeNow()), p))
    {
      hide Names, Distinct, RingValid, OutNow, D.Device.Valid, D.Outgoing.Valid, D.Store.Valid, D.Intake.Valid,
           Splice;
      var temp := indexWrite + len;
      if temp >= D.CBW_SIZE {
        temp := D.CBW_SIZE;
        cbwProgress := false;
        cbwFinished := true;
      }
      CopyToCbw(indexWrite, packet, temp - indexWrite, p);
      indexWrite := temp;
    }

    /** A packet of a command block. */
    method TakeCommand(packet: array<byte>, len: nat, ghost p: D.Received)
      requires Valid() && packet.Length >= 8 && p.Valid() && packet[..8] == p.data && len == p.len
      requires packet != cbw
      modifies cbw, this`indexWrite, this`cbwProgress, this`cbwFinished
      ensures Valid() && State() == old(State()).(intake := D.TakeCommand(old(IntakeNow()), p))
    {
      hide D.TakeCommand, Names, Distinct, RingValid, OutNow, D.Device.Valid, D.Outgoing.Valid, D.Store.Valid,
           D.Intake.Valid, Splice;
      if !cbwProgress && !cbwFinished {
        StartCommand(packet, len, p);
      } else {
        ContinueCommand(packet, len, p);
      }
    }

    /** What keeps the code inside its arrays: the map has 128 bits, the ring 100 slots. */
    ghost predicate InBounds()
      requires Valid()
      reads this, chip, ring, ring.packets, ring.packetLength, Statics()
    {
      && |OutNow().queue| < BUFFER_SIZE - 4
      && (isWriting ==> (logicalBlock + writePage) % 0x100 < BLOCKS)
    }

    method UsbFunctionWriteOut(packet: array<byte>, len: nat, ghost p: D.Received)
      requires Valid() && InBounds()
      requires packet.Length >= 8 && p.Valid() && packet[..8] == p.data && len == p.len && packet != cbw
      modifies this`ram, this`count, this`writePage, this`isWriting, this`isWritingBeginning
      modifies this`indexWrite, this`cbwProgress, this`cbwFinished
      modifies cbw, blocksWritten, csw, ring`indexIn, ring.packets, ring.packetLength
      ensures Valid() && State() == D.WriteOut(old(State()), p)
    {
      hide D.TakeData, D.TakeCommand, Names, Distinct, RingValid, OutNow, D.Device.Valid, D.Outgoing.Valid,
           D.Store.Valid, D.Intake.Valid;
      if isWriting {
        TakeData(packet, p);
      } else {
        TakeCommand(packet, len, p);
      }
    }

    // ---------------------------------------- usb_send_next_data and execute_read

    /** What the next chunk is, seen from the fields. */
    lemma NextChunk()
      requires RingValid() && data.Length == D.DATA_LENGTH && csw.Length == D.CSW_LENGTH
      requires dataNull.Length == 8 && dataNull[..] == D.Zeros(8) && Distinct() && ring.Queue() != []
      ensures
        var q, done, out := ring.Queue(), ring.Done(), OutNow();
        D.SendNextData(out) ==
        if q[0].length - done > 8 then (out.(done := done + 8), Some(q[0].data[done..done + 8]))
        else (out.(queue := Names(q[1..]), done := 0), Some(q[0].data[done..q[0].length]))
    {
      hide Names;
      var q, done := ring.Queue(), ring.Done();
      assert OutNow().Content(BufferName(q[0].data)) == q[0].data[..];
      assert Names(q[1..]) == Names(q)[1..];
      PartOfMessage(q[0].data[..], q[0].length, done);
    }

    method SendNextData() returns (sent: Option<seq<byte>>)
      requires Valid()
      modifies ring`indexOut, ring`duringSend, ring`indexDuringSend
      ensures Valid()
      ensures
        var (out, message) := D.SendNextData(old(OutNow()));
        State() == old(State()).(out := out) && sent == message
    {
      hide Names, Distinct, D.SendNextData, D.Device.Valid, D.Store.Valid, D.Intake.Valid, D.Outgoing.Valid;
      if ring.Queue() == [] {
        NoChunk(OutNow());
      } else {
        NextChunk();
      }
      sent := ring.SendNextData();
    }

    method ReadChunk(at: nat) returns (chunk: seq<byte>)
      requires Valid()
      ensures chunk == D.ReadRam(ram, at, 8)
    {
      var buffer := new byte[8];
      for i := 0 to 8
        invariant buffer[..i] == D.ReadRam(ram, at, i)
      {
        buffer[i] := RamReadByte(at + i);
      }
      chunk := buffer[..];
    }

    /** One block of a READ is sent; the last one is followed by the status. */
    method FinishBlock()
      requires Valid() && |OutNow().queue| < BUFFER_SIZE - 1
      modifies this`transferLength, this`shouldRead, this`readCount
      modifies csw, ring`indexIn, ring.packets, ring.packetLength
      ensures Valid()
      ensures
        var d := old(State());
        var length := (d.rd.length - 1) % 0x1_0000;
        State() == if length == 0 then d.(rd := d.rd.(length := 0, active := false), out := D.SendStatus(d.out, d.tag))
                   else d.(rd := d.rd.(count := 0, length := length))
    {
      hide D.SendStatus, Names, Distinct, RingValid, OutNow, D.Device.Valid, D.Outgoing.Valid, D.Store.Valid,
           D.Intake.Valid;
      transferLength := (transferLength - 1) % 0x1_0000;
      if transferLength == 0 {
        QueueStatus();
        shouldRead := false;
      } else {
        readCount := 0;
      }
    }

    method ExecuteRead() returns (sent: Option<seq<byte>>)
      requires Valid() && |OutNow().queue| < BUFFER_SIZE - 1
      modifies this`transferLength, this`shouldRead, this`readCount
      modifies csw, ring`indexIn, ring.packets, ring.packetLength
      ensures Valid() && (State(), sent) == D.ExecuteRead(old(State()))
    {
      hide D.SendStatus, D.ReadRam, Names, Distinct, RingValid, OutNow, D.Device.Valid, D.Outgoing.Valid,
           D.Store.Valid, D.Intake.Valid;
      sent := None;
      if shouldRead {
        if readCount <= read {
          var blocks := (transferLengthBeginning - transferLength) % 0x1_0000;
          var chunk := ReadChunk(logicalBlock * D.BLOCK_SIZE + readCount * 8 + blocks * D.BLOCK_SIZE);
          sent := Some(chunk);
          readCount := D.Wrap16(readCount + 1);
        }
        if readCount == read {
          FinishBlock();
        }
      }
    }

    /** The body of `if (usbInterruptIsReady())`: what is handed to the driver, in order. */
    method SendTurn() returns (sent: seq<seq<byte>>)
      requires Valid() && |OutNow().queue| < BUFFER_SIZE - 1
      modifies ring`indexOut, ring`duringSend, ring`indexDuringSend
      modifies this`transferLength, this`shouldRead, this`readCount
      modifies csw, ring`indexIn, ring.packets, ring.packetLength
      ensures Valid() && (State(), sent) == D.SendTurn(old(State()))
    {
      hide D.ExecuteRead, D.SendNextData, Names, Distinct, RingValid, OutNow, D.Device.Valid, D.Outgoing.Valid,
           D.Store.Valid, D.Intake.Valid;
      var first := SendNextData();
      assert |OutNow().queue| < BUFFER_SIZE - 1 by {
        FewerQueued(old(OutNow()));
      }
      var second := ExecuteRead();
      sent := D.Loaded(first) + D.Loaded(second);
    }

    // --------------------------------------------------------------- execute_cbw

    method FillInquiry()
      requires Valid()
      modifies data
      ensures Valid() && State() == old(State()).(out := old(OutNow()).(data := D.InquiryData()))
    {
      hide D.InquiryData, Names, Known, Ring.Valid, Ring.Queue, Ring.Done;
      InquiryReply(data);
    }

    method FillCapacity()
      requires Valid()
      modifies data
      ensures Valid()
      ensures
        var out := old(OutNow());
        State() == old(State()).(out := out.(data := [0, 0, 0, 128, 0, 0, 2, 0] + out.data[8..]))
    {
      hide Names, RingValid;
      CapacityReply(data);
    }

    method FillModeSense()
      requires Valid()
      modifies data
      ensures Valid()
      ensures State() == old(State()).(out := old(OutNow()).(data := D.MODE_PARAMETERS + old(OutNow()).data[14..]))
    {
      hide Names, RingValid;
      ModeReply(data);
    }

    method ClearReply()
      requires Valid()
      modifies data
      ensures Valid() && State() == old(State()).(out := old(OutNow()).(data := D.Zeros(8) + old(OutNow()).data[8..]))
    {
      hide Names, RingValid;
      ZeroReply(data);
    }

    method CopyTag()
      requires Valid()
      modifies cbwTag
      ensures Valid()
      ensures State() == old(State()).(tag := old(cbw[..])[D.CBW_TAG_OFFSET..D.CBW_TAG_OFFSET + 4])
    {
      hide Names, RingValid;
      DataCpy(cbwTag, 0, cbw, D.CBW_TAG_OFFSET, 4);
      assert cbwTag[..] == old(cbw[..])[D.CBW_TAG_OFFSET..D.CBW_TAG_OFFSET + 4];
    }

    /** The 32-bit block address loses its upper half in the 16-bit `logical_block`. */
    method SetAddress()
      requires Valid()
      modifies this`logicalBlock
      ensures Valid()
      ensures
        var d := old(State());
        State() == d.(logicalBlock := D.Big16(d.intake.cbw[D.CBW_CB_OFFSET + 4], d.intake.cbw[D.CBW_CB_OFFSET + 5]))
    {
      hide Names, Distinct, RingValid, OutNow, D.Device.Valid, D.Outgoing.Valid, D.Store.Valid, D.Intake.Valid,
           D.Big16;
      logicalBlock := D.Big16(cbw[D.CBW_CB_OFFSET + 4], cbw[D.CBW_CB_OFFSET + 5]);
    }

    method SetReading()
      requires Valid()
      modifies this`transferLength, this`transferLengthBeginning, this`readCount, this`read, this`shouldRead
      ensures Valid()
      ensures
        var d := old(State());
        var length := D.Big16(d.intake.cbw[D.CBW_CB_OFFSET + 7], d.intake.cbw[D.CBW_CB_OFFSET + 8]);
        State() == d.(rd := D.Reading(true, 0, D.BLOCK_SIZE / 8, length, length))
    {
      hide Names, Distinct, RingValid, OutNow, D.Device.Valid, D.Outgoing.Valid, D.Store.Valid, D.Intake.Valid,
           D.Big16;
      transferLength := D.Big16(cbw[D.CBW_CB_OFFSET + 7], cbw[D.CBW_CB_OFFSET + 8]);
      transferLengthBeginning := transferLength;
      readCount, read, shouldRead := 0, D.BLOCK_SIZE / 8, true;
    }

    /** READ starts its data phase. */
    method StartRead()
      requires Valid()
      modifies data, this`logicalBlock, this`transferLength, this`transferLengthBeginning
      modifies this`readCount, this`read, this`shouldRead
      ensures Valid()
      ensures
        var d := old(State());
        var length := D.Big16(d.intake.cbw[D.CBW_CB_OFFSET + 7], d.intake.cbw[D.CBW_CB_OFFSET + 8]);
        State() == d.(logicalBlock := D.Big16(d.intake.cbw[D.CBW_CB_OFFSET + 4], d.intake.cbw[D.CBW_CB_OFFSET + 5]),
                      rd := D.Reading(true, 0, D.BLOCK_SIZE / 8, length, length),
                      out := d.out.(data := D.Zeros(8) + d.out.data[8..]))
    {
      hide Names, Distinct, RingValid, OutNow, D.Device.Valid, D.Outgoing.Valid, D.Store.Valid, D.Intake.Valid,
           D.Big16;
      SetAddress();
      ClearReply();
      SetReading();
    }

    /** WRITE starts its data phase. */
    method StartWrite()
      requires Valid()
      modifies this`isWritingBeginning, this`writePage, this`logicalBlock
      modifies this`isWriting, this`write, this`count, this`transferLengthWrite
      ensures Valid()
      ensures
        var d := old(State());
        var block, page := d.intake.cbw, if d.wr.beginning then d.wr.page else 0;
        var length := D.Big16(block[D.CBW_CB_OFFSET + 7], block[D.CBW_CB_OFFSET + 8]);
        State() == d.(logicalBlock := D.Big16(block[D.CBW_CB_OFFSET + 4], block[D.CBW_CB_OFFSET + 5]),
                      wr := D.Writing(true, true, D.BLOCK_SIZE / 8, 0, page, length % 0x100))
    {
      hide Names, Distinct, RingValid, OutNow, D.Device.Valid, D.Outgoing.Valid, D.Store.Valid, D.Intake.Valid,
           D.Big16;
      if !isWritingBeginning {
        SetWritingBeginning();
      }
      SetAddress();
      SetWriting(D.BLOCK_SIZE / 8, D.Big16(cbw[D.CBW_CB_OFFSET + 7], cbw[D.CBW_CB_OFFSET + 8]));
    }

    /** The commands that answer from the reply buffers. */
    method Answer(op: byte)
      requires Valid() && |OutNow().queue| < BUFFER_SIZE - 2
      modifies data, csw, ring`indexIn, ring.packets, ring.packetLength
      ensures Valid()
      ensures
        var d := old(State());
        State() == match D.ReplyTo(op, d.out.data)
                   case NoReply => d
                   case StatusOnly => d.(out := D.SendStatus(d.out, d.tag))
                   case DataThenStatus(data, buffer, length) =>
                     d.(out := D.SendStatus(D.SendData(d.out.(data := data), buffer, length), d.tag))
    {
      hide D.SendStatus, D.InquiryData, Names, Distinct, RingValid, OutNow, D.Device.Valid, D.Outgoing.Valid,
           D.Store.Valid, D.Intake.Valid;
      if op == D.INQUIRY {
        FillInquiry();
        QueueData(data, 36);
        QueueStatus();
      } else if op == D.TEST_UNIT_READY || op == D.PREVENT_REMOVAL || op == D.START_STOP_UNIT {
        QueueStatus();
      } else if op == D.READ_CAPACITY {
        FillCapacity();
        QueueData(data, 8);
        QueueStatus();
      } else if op == D.MODE_SENSE {
        FillModeSense();
        QueueData(data, 0x23);
        QueueStatus();
      } else if op == D.READ_FORMAT_CAPACITIES {
        QueueData(dataNull, 4);
        QueueStatus();
      }
    }

    method ExecuteCbw()
      requires Valid() && |OutNow().queue| < BUFFER_SIZE - 2
      modifies cbwTag, data, csw, ring`indexIn, ring.packets, ring.packetLength
      modifies this`logicalBlock, this`transferLength, this`transferLengthBeginning
      modifies this`readCount, this`read, this`shouldRead
      modifies this`isWritingBeginning, this`writePage
      modifies this`isWriting, this`write, this`count, this`transferLengthWrite
      ensures Valid() && State() == D.ExecuteCbw(old(State()))
    {
      hide D.SendStatus, D.ReplyTo, D.Big16, Names, Distinct, RingValid, OutNow, D.Device.Valid, D.Outgoing.Valid,
           D.Store.Valid, D.Intake.Valid;
      CopyTag();
      var op := cbw[D.CBW_CB_OFFSET];
      if op == D.READ {
        StartRead();
      } else if op == D.WRITE {
        StartWrite();
      } else {
        Answer(op);
      }
    }

    method CommandTurn()
      requires Valid() && |OutNow().queue| < BUFFER_SIZE - 2
      modifies this`cbwFinished
      modifies cbwTag, data, csw, ring`indexIn, ring.packets, ring.packetLength
      modifies this`logicalBlock, this`transferLength, this`transferLengthBeginning
      modifies this`readCount, this`read, this`shouldRead
      modifies this`isWritingBeginning, this`writePage
      modifies this`isWriting, this`write, this`count, this`transferLengthWrite
      ensures Valid() && State() == D.CommandTurn(old(State()))
    {
      hide D.ExecuteCbw, Names, Distinct, RingValid, OutNow, D.Device.Valid, D.Outgoing.Valid, D.Store.Valid,
           D.Intake.Valid;
      if cbwFinished {
        cbwFinished := false;
        ExecuteCbw();
      }
    }

    // ------------------------------------------------------------------ the flush

    /** Block `t * 8 + j` is taken out of the map and flushed next. */
    method ClaimBlock(t: nat, j: nat)
      requires Valid() && t < MAP_BYTES && j < 8
      modifies this`writeBlock, blocksWritten
      ensures Valid()
      ensures
        var d, b := old(State()), t * 8 + j;
        State() == d.(store := d.store.(writeBlock := b, dirty := Clear(d.store.dirty, b)))
    {
      hide Names, RingValid, Mask;
      writeBlock := t * 8 + j;
      blocksWritten[t] := blocksWritten[t] & !Mask(j);
    }

    /** One byte of the map, its lowest bit first. */
    method PickFrom(t: nat) returns (suc: bool)
      requires Valid() && t < MAP_BYTES
      modifies this`writeBlock, blocksWritten
      ensures Valid()
      ensures
        var d := old(State());
        if suc then
          FirstDirty(d.store.dirty, 8 * t) >= 0
          && State() == d.(store := d.store.(writeBlock := FirstDirty(d.store.dirty, 8 * t),
                                          dirty := Clear(d.store.dirty, FirstDirty(d.store.dirty, 8 * t))))
        else
          State() == d && FirstDirty(d.store.dirty, 8 * t) == FirstDirty(d.store.dirty, 8 * t + 8)
    {
      hide Names, Distinct, RingValid, OutNow, D.Device.Valid, D.Outgoing.Valid, D.Store.Valid, D.Intake.Valid,
           Mask, Clear;
      ghost var m: DirtyMap := blocksWritten[..];
      for j := 0 to 8
        invariant Valid() && State() == old(State())
        invariant forall c :: 8 * t <= c < 8 * t + j ==> !IsDirty(m, c)
      {
        BitOf(m, t, j);
        if blocksWritten[t] & Mask(j) > 0 {
          FirstDirtySkips(m, 8 * t, 8 * t + j);
          ClaimBlock(t, j);
          return true;
        }
      }
      FirstDirtySkips(m, 8 * t, 8 * t + 8);
      return false;
    }

    /** The scan of the dirty map, byte by byte, left at the first bit that is set. */
    method PickBlock(ghost busOk: bool)
      requires Valid() && writeBlock < 0
      modifies this`writeBlock, blocksWritten
      ensures Valid() && State() == old(State()).(store := D.Flush(old(StoreNow()), busOk))
    {
      hide Names, Distinct, RingValid, OutNow, D.Device.Valid, D.Outgoing.Valid, D.Store.Valid, D.Intake.Valid,
           Mask, Clear;
      ghost var m: DirtyMap := blocksWritten[..];
      for t := 0 to MAP_BYTES
        invariant Valid() && State() == old(State())
        invariant FirstDirty(m, 0) == FirstDirty(m, 8 * t)
      {
        if blocksWritten[t] > 0 {
          var suc := PickFrom(t);
          if suc {
            return;
          }
        } else {
          ByteSkipped(m, t);
        }
      }
    }

    /** 128 bytes of RAM go to the transfer buffer. */
    method FetchPage(at: nat)
      requires Valid() && at + D.PAGE_SIZE <= D.RAM_SIZE
      modifies dataRw
      ensures Valid() && State() == old(State()) && dataRw[..] == ram[at..at + D.PAGE_SIZE]
    {
      hide Names, RingValid, OutNow, D.Device.Valid, D.Outgoing.Valid, D.Store.Valid, D.Intake.Valid;
      for i := 0 to D.PAGE_SIZE
        invariant Valid() && State() == old(State())
        invariant dataRw[..i] == ram[at..at + i]
      {
        dataRw[i] := RamReadByte(at + i);
      }
      assert dataRw[..] == dataRw[..D.PAGE_SIZE];
    }

    /** What `ext_eeprom_write_block` says is not looked at. */
    method StorePage(at: nat) returns (ret: TwiResult)
      requires Valid() && at + D.PAGE_SIZE <= D.RAM_SIZE && at % D.PAGE_SIZE == 0
      modifies chip
      ensures Valid()
      ensures
        var d := old(State());
        State() == if ret == TWI_OK then d.(store := d.store.(eeprom := Splice(d.store.eeprom, at, dataRw[..]))) else d
      ensures ret == TWI_OK <==> chip.failed == old(chip.failed)
    {
      hide Names, Distinct, RingValid, OutNow, D.Device.Valid, D.Outgoing.Valid, D.Store.Valid, D.Intake.Valid,
           CutsAtPages, Loop, WrapSplice, Total;
      PageCuts(at, chip.mem, dataRw[..]);
      ret := chip.WriteBlock(dataRw, at, D.PAGE_SIZE);
      assert dataRw[..D.PAGE_SIZE] == dataRw[..];
      if ret == TWI_ERR {
        PageAllOrNothing(at, old(chip.mem), dataRw[..]);
      }
    }

    /** One page of the block being flushed. */
    method CopyPage() returns (ret: TwiResult)
      requires Valid() && writeBlock >= 0
      modifies this`writeBlock, this`flushCount, dataRw, chip
      ensures Valid() && State() == old(State()).(store := D.Flush(old(StoreNow()), ret == TWI_OK))
      ensures ret == TWI_OK <==> chip.failed == old(chip.failed)
    {
      hide Names, Distinct, RingValid, OutNow, D.Device.Valid, D.Outgoing.Valid, D.Store.Valid, D.Intake.Valid;
      var at := D.BLOCK_SIZE * writeBlock + flushCount * D.PAGE_SIZE;
      PageAligned(writeBlock, flushCount);
      FetchPage(at);
      ghost var s := StoreNow();
      ret := StorePage(at);
      hide D.Flush;
      CopyOf(s, at, ret == TWI_OK);
      NextPage();
    }

    method NextPage()
      requires Valid() && writeBlock >= 0
      modifies this`writeBlock, this`flushCount
      ensures Valid()
      ensures
        State() ==
        var s := old(StoreNow());
        old(State()).(store := s.(page := if s.page == 3 then 0 else s.page + 1,
                                  writeBlock := if s.page == 3 then -1 else s.writeBlock))
    {
      hide Names, Distinct, RingValid, OutNow, D.Device.Valid, D.Outgoing.Valid, D.Intake.Valid;
      flushCount := flushCount + 1;
      if flushCount >= 4 {
        flushCount := 0;
        writeBlock := -1;
      }
    }

    method FlushTurn() returns (ret: TwiResult)
      requires Valid()
      modifies this`writeBlock, this`flushCount, blocksWritten, dataRw, chip
      ensures Valid() && State() == old(State()).(store := D.Flush(old(StoreNow()), ret == TWI_OK))
      ensures ret == TWI_OK <==> chip.failed == old(chip.failed)
    {
      hide Names, Distinct, RingValid, OutNow, D.Device.Valid, D.Outgoing.Valid, D.Store.Valid, D.Intake.Valid,
           D.Flush;
      if writeBlock < 0 {
        ret := TWI_OK;
        PickBlock(true);
      } else {
        ret := CopyPage();
      }
    }

    // -------------------------------------------------------------- the main loop

    /** What `usbPoll` delivers, if anything. */
    method PollTurn(packet: array<byte>, received: bool, len: nat, ghost p: D.Received)
      requires Valid() && InBounds()
      requires packet.Length == 8 && p.Valid() && packet[..] == p.data && len == p.len && packet != cbw
      modifies this`ram, this`count, this`writePage, this`isWriting, this`isWritingBeginning
      modifies this`indexWrite, this`cbwProgress, this`cbwFinished
      modifies cbw, blocksWritten, csw, ring`indexIn, ring.packets, ring.packetLength
      ensures Valid() && State() == D.Poll(old(State()), if received then Some(p) else None)
      ensures |OutNow().queue| < BUFFER_SIZE - 3
    {
      hide Names, Distinct, RingValid, OutNow, D.Device.Valid, D.Outgoing.Valid, D.Store.Valid, D.Intake.Valid,
           D.WriteOut;
      if received {
        assert packet[..8] == packet[..];
        AtMostOneMore(State(), p);
        UsbFunctionWriteOut(packet, len, p);
      }
    }

    /** Both senders, when the IN buffer is free. */
    method ReadyTurn(ready: bool) returns (sent: seq<seq<byte>>)
      requires Valid() && |OutNow().queue| < BUFFER_SIZE - 3
      modifies ring`indexOut, ring`duringSend, ring`indexDuringSend
      modifies this`transferLength, this`shouldRead, this`readCount
      modifies csw, ring`indexIn, ring.packets, ring.packetLength
      ensures Valid() && (State(), sent) == if ready then D.SendTurn(old(State())) else (old(State()), [])
      ensures |OutNow().queue| < BUFFER_SIZE - 2
    {
      hide Names, Distinct, RingValid, OutNow, D.Device.Valid, D.Outgoing.Valid, D.Store.Valid, D.Intake.Valid,
           D.SendTurn;
      sent := [];
      if ready {
        AtMostOneSent(State());
        sent := SendTurn();
      }
    }

    /** One pass of the main loop: the packet `usbPoll` delivers, if any, and whether the IN
        buffer is free come from the driver; what is handed to `usbSetInterrupt` and what the
        EEPROM said come back. */
    method MainTurn(packet: array<byte>, received: bool, len: nat, ready: bool)
      returns (sent: seq<seq<byte>>, ret: TwiResult, ghost input: D.Input)
      requires Valid() && InBounds()
      requires packet.Length == 8 && packet != cbw && len <= 8
      modifies this, chip, ring, ring.packets, ring.packetLength
      modifies blocksWritten, cbw, cbwTag, csw, data, dataRw
      ensures Valid() && input.Valid() && (State(), sent) == D.Turn(old(State()), input)
      ensures input == D.Input(if received then Some(D.Received(old(packet[..]), len)) else None, ready, ret == TWI_OK)
      ensures ret == TWI_OK <==> chip.failed == old(chip.failed)
    {
      hide Names, Distinct, RingValid, OutNow, D.Device.Valid, D.Outgoing.Valid, D.Store.Valid, D.Intake.Valid,
           D.Poll, D.SendTurn, D.CommandTurn, D.Flush;
      ghost var p := D.Received(packet[..], len);
      PollTurn(packet, received, len, p);
      sent := ReadyTurn(ready);
      CommandTurn();
      ret := FlushTurn();
      input := D.Input(if received then Some(p) else None, ready, ret == TWI_OK);
    }

    // -------------------------------------------------------------------- boot

    method LoadPiece(piece: array<byte>, at: nat)
      requires Valid() && piece.Length == 32 && at + 32 <= D.RAM_SIZE
      modifies this`ram
      ensures Valid() && ram == Splice(old(ram), at, piece[..])
    {
      hide Names, Distinct, RingValid, OutNow, D.Device.Valid, D.Outgoing.Valid, D.Store.Valid, D.Intake.Valid;
      for i := 0 to 32
        invariant Valid() && ram == Splice(old(ram), at, piece[..i])
      {
        RamWriteByte(at + i, piece[i]);
      }
      assert piece[..32] == piece[..];
    }

    /** The boot loop: 2048 sequential reads of 32 bytes. When the EEPROM answered them all,
        the firmware is in the state that a power-up leaves it in. */
    method Boot() returns (ok: bool)
      requires Valid()
      modifies this`ram, chip
      ensures Valid() && chip.mem == old(chip.mem)
      ensures ok ==> State() == old(State()).(store := old(StoreNow()).(ram := old(chip.mem)))
      ensures ok <==> chip.failed == old(chip.failed)
    {
      hide Names, Distinct, RingValid, OutNow, D.Device.Valid, D.Outgoing.Valid, D.Store.Valid, D.Intake.Valid;
      ok := true;
      for j := 0 to 2048
        invariant Valid() && chip.mem == old(chip.mem)
        invariant State() == old(State()).(store := old(StoreNow()).(ram := ram))
        invariant ok ==> ram[..j * 32] == chip.mem[..j * 32]
        invariant chip.failed >= old(chip.failed) && (ok <==> chip.failed == old(chip.failed))
      {
        ghost var before := ram;
        var ret := LoadFrom(j * 32);
        ok := ok && ret == TWI_OK;
        LoadedUpTo(before, ram, chip.mem, j * 32, ok);
      }
    }

    /** The body of the boot loop. */
    method LoadFrom(at: nat) returns (ret: TwiResult)
      requires Valid() && at + 32 <= D.RAM_SIZE
      modifies this`ram, chip
      ensures Valid() && chip.mem == old(chip.mem) && ram[..at] == old(ram[..at])
      ensures State() == old(State()).(store := old(StoreNow()).(ram := ram))
      ensures ret == TWI_OK ==> ram[at..at + 32] == chip.mem[at..at + 32]
      ensures chip.failed >= old(chip.failed) && (ret == TWI_OK <==> chip.failed == old(chip.failed))
    {
      hide Names, Distinct, RingValid, OutNow, D.Device.Valid, D.Outgoing.Valid, D.Store.Valid, D.Intake.Valid;
      var piece := new byte[32];
      ret := chip.ReadBlock(piece, at, 32);
      LoadPiece(piece, at);
    }
  }

  lemma LoadedUpTo(before: seq<byte>, ram: seq<byte>, mem: seq<byte>, at: nat, ok: bool)
    requires |before| == |ram| == |mem| && at + 32 <= |mem| && ram[..at] == before[..at]
    requires ok ==> before[..at] == mem[..at] && ram[at..at + 32] == mem[at..at + 32]
    ensures ok ==> ram[..at + 32] == mem[..at + 32]
  {
    assert ram[..at + 32] == ram[..at] + ram[at..at + 32];
    assert mem[..at + 32] == mem[..at] + mem[at..at + 32];
  }

  /** The flush step of the model, for a block being copied. */
  lemma CopyOf(s: D.Store, at: nat, ok: bool)
    requires s.Valid() && s.writeBlock >= 0 && at == D.BLOCK_SIZE * s.writeBlock + s.page * D.PAGE_SIZE
    ensures at + D.PAGE_SIZE <= D.RAM_SIZE
    ensures
      D.Flush(s, ok) ==
      s.(eeprom := if ok then Splice(s.eeprom, at, s.ram[at..at + D.PAGE_SIZE]) else s.eeprom,
         page := if s.page == 3 then 0 else s.page + 1, writeBlock := if s.page == 3 then -1 else s.writeBlock)
  {}

  lemma PartOfMessage(data: seq<byte>, length: nat, done: nat)
    requires done <= length <= |data|
    ensures data[..length][done..] == data[done..length]
    ensures length - done > 8 ==> data[..length][done..done + 8] == data[done..done + 8]
  {}

  lemma PageAligned(block: nat, page: nat)
    requires block < BLOCKS && page < 4
    ensures (D.BLOCK_SIZE * block + page * D.PAGE_SIZE) % D.PAGE_SIZE == 0
  {}

  /** A page of the flush meets every condition of the block write. */
  lemma PageCuts(at: nat, mem: seq<byte>, page: seq<byte>)
    requires at % D.PAGE_SIZE == 0 && |mem| == EEPROM_SIZE && |page| == D.PAGE_SIZE && at + |page| <= EEPROM_SIZE
    ensures Right(at, D.PAGE_SIZE) && CutsAtPages(at, Total(at, D.PAGE_SIZE))
    ensures Needed(at, D.PAGE_SIZE) == Total(at, D.PAGE_SIZE) == D.PAGE_SIZE && NoOverflow(at, D.PAGE_SIZE)
    ensures WrapSplice(mem, at, page) == Splice(mem, at, page)
  {}

  /** A page write of the flush is one turn of the split loop: refused, it changes nothing. */
  lemma PageAllOrNothing(at: nat, mem: seq<byte>, page: seq<byte>)
    requires at % D.PAGE_SIZE == 0 && |mem| == EEPROM_SIZE && |page| == D.PAGE_SIZE && at + |page| <= EEPROM_SIZE
    ensures Needed(at, D.PAGE_SIZE) == D.PAGE_SIZE
    ensures forall k: nat :: GoesOn(at, D.PAGE_SIZE, k) ==> Loop(mem, at, page, D.PAGE_SIZE, k) == mem
  {
    PageCuts(at, mem, page);
    forall k: nat | GoesOn(at, D.PAGE_SIZE, k) ensures Loop(mem, at, page, D.PAGE_SIZE, k) == mem {
      AtIsCut(at, D.PAGE_SIZE, k);
      assert Step(at) == D.PAGE_SIZE;
      assert k == 0;
      LoopStarts(mem, at, page, D.PAGE_SIZE);
    }
  }

  lemma AtMostOneMore(d: D.Device, p: D.Received)
    requires d.Valid() && p.Valid()
    ensures |D.WriteOut(d, p).out.queue| <= |d.out.queue| + 1
  {}

  lemma AtMostOneSent(d: D.Device)
    requires d.Valid()
    ensures |D.SendTurn(d).0.out.queue| <= |d.out.queue| + 1
  {}

  lemma BitOf(m: DirtyMap, t: nat, j: nat)
    requires t < MAP_BYTES && j < 8
    ensures IsDirty(m, 8 * t + j) <==> m[t] & Mask(j) > 0
    ensures (8 * t + j) / 8 == t && (8 * t + j) % 8 == j
  {}

  lemma ByteSkipped(m: DirtyMap, t: nat)
    requires t < MAP_BYTES && m[t] == 0
    ensures FirstDirty(m, 8 * t) == FirstDirty(m, 8 * t + 8)
  {
    ZeroByte(m[t]);
    FirstDirtySkips(m, 8 * t, 8 * t + 8);
  }

  lemma NoChunk(o: D.Outgoing)
    requires o.Valid() && o.queue == []
    ensures D.SendNextData(o) == (o, None)
  {}

  lemma FewerQueued(o: D.Outgoing)
    requires o.Valid()
    ensures |D.SendNextData(o).0.queue| <= |o.queue|
  {}
}
