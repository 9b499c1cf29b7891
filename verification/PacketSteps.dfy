/** Packets from the host, and the command a packet completes. */
module PacketSteps {
  import opened Bytes
  import opened Bitmap
  import opened Transfer
  import opened Device
  import opened Disk
  import opened System

  // ------------------------------------------------------------ the data phase

  lemma {:induction false} WriteInside(ram: seq<byte>, at: nat, data: seq<byte>)
    requires |ram| == RAM_SIZE && at + |data| <= RAM_SIZE
    ensures WriteRam(ram, at, data) == Splice(ram, at, data)
  {
    if data != [] {
      WriteInside(ram, at, data[..|data| - 1]);
    }
  }

  /** Eight bytes go to the next place of the block being received. */
  lemma BytesLand(d: Device, h: Disk, p: Received)
    requires d.Valid() && h.Valid() && p.Valid() && h.phase.DataOut? && Agrees(d, h)
    ensures
      var at := (d.logicalBlock + d.wr.page) * BLOCK_SIZE + d.wr.count * 8;
      && at == h.phase.lba * BLOCK_SIZE + |h.phase.payload| && at + 8 <= RAM_SIZE
      && TakeData(d, p).store.ram == Splice(d.store.ram, at, p.data)
  {
    WriteInside(d.store.ram, (d.logicalBlock + d.wr.page) * BLOCK_SIZE + d.wr.count * 8, p.data);
  }

  lemma PayloadGrows(d: Device, h: Disk, p: Received)
    requires d.Valid() && h.Valid() && p.Valid() && h.phase.DataOut? && Agrees(d, h) && p.len == 8
    ensures
      var lba, payload := h.phase.lba, h.phase.payload + p.Bytes();
      && lba * BLOCK_SIZE + |payload| <= RAM_SIZE
      && TakeData(d, p).store.ram == Splice(h.image, lba * BLOCK_SIZE, payload)
  {
    hide TakeData;
    assert p.Bytes() == p.data;
    BytesLand(d, h, p);
    SpliceSplice(h.image, h.phase.lba * BLOCK_SIZE, h.phase.payload, p.data);
  }

  /** The counters after a data packet: the packet that fills a block marks it dirty, the
      one that fills the last block ends the phase with a status. */
  lemma CountersAdvance(d: Device, h: Disk, p: Received)
    requires d.Valid() && h.Valid() && p.Valid() && h.phase.DataOut? && Agrees(d, h)
    ensures
      var d', block := TakeData(d, p), d.logicalBlock + d.wr.page;
      && block < BLOCKS
      && d'.store.eeprom == d.store.eeprom && d'.store.writeBlock == d.store.writeBlock && d'.store.page == d.store.page
      && d'.intake == d.intake && d'.rd == d.rd && d'.tag == d.tag && d'.logicalBlock == d.logicalBlock
      && d'.wr.write == d.wr.write && d'.wr.length == d.wr.length && d'.wr.beginning == d'.wr.active
      && d'.store.dirty == (if d.wr.count == 63 then Mark(d.store.dirty, block) else d.store.dirty)
      && d'.wr.page * BLOCK_SIZE + d'.wr.count * 8 == d.wr.page * BLOCK_SIZE + d.wr.count * 8 + 8
      && d'.wr.count == (d.wr.count + 1) % 64
      && d'.wr.active == (d'.wr.page * BLOCK_SIZE + d'.wr.count * 8 < d.wr.length * BLOCK_SIZE)
      && d'.out == if d'.wr.active then d.out else SendStatus(d.out, d.tag)
  {
    hide WriteRam, SendStatus, Mark;
  }

  lemma DataCoherent(d: Device, h: Disk, p: Received, lost: set<int>)
    requires d.Valid() && h.Valid() && p.Valid() && h.phase.DataOut? && Agrees(d, h)
    requires Coherent(d, lost)
    ensures Coherent(TakeData(d, p), lost)
  {
    var d' := TakeData(d, p);
    BytesLand(d, h, p);
    CountersAdvance(d, h, p);
    InPhase(d, h);
    hide TakeData, Agrees, Excused, Mark, Splice, WriteRam;
    forall a: nat | a < RAM_SIZE ensures d'.store.ram[a] == d'.store.eeprom[a] || Excused(d', lost, a) {
      ByteCoherent(d, d', p.data, lost, a);
    }
  }

  lemma InPhase(d: Device, h: Disk)
    requires d.Valid() && h.Valid() && h.phase.DataOut? && Agrees(d, h)
    ensures d.wr.active && d.wr.count < 64
  {}

  /** One byte of RAM, when eight more arrive. */
  lemma ByteCoherent(d: Device, d': Device, data: seq<byte>, lost: set<int>, a: nat)
    requires d.Valid() && d'.Valid() && |data| == 8 && a < RAM_SIZE && d.wr.active && d.wr.count < 64
    requires
      var block := d.logicalBlock + d.wr.page;
      && block < BLOCKS && d'.store.ram == Splice(d.store.ram, block * BLOCK_SIZE + d.wr.count * 8, data)
      && d'.store.dirty == (if d.wr.count == 63 then Mark(d.store.dirty, block) else d.store.dirty)
    requires d'.store.eeprom == d.store.eeprom
    requires d'.store.writeBlock == d.store.writeBlock && d'.store.page == d.store.page
    requires d'.wr.page * BLOCK_SIZE + d'.wr.count * 8 == d.wr.page * BLOCK_SIZE + d.wr.count * 8 + 8
    requires d.wr.count < 63 ==> d'.wr.active && d'.wr.count == d.wr.count + 1 && d'.logicalBlock == d.logicalBlock
    requires d.store.ram[a] == d.store.eeprom[a] || Excused(d, lost, a)
    ensures d'.store.ram[a] == d'.store.eeprom[a] || Excused(d', lost, a)
  {
    hide IsDirty, Mark, Receiving;
    var block := d.logicalBlock + d.wr.page;
    MarkOne(d.store.dirty, block, a / BLOCK_SIZE);
    StillReceiving(d, d', a);
    var at := block * BLOCK_SIZE + d.wr.count * 8;
    assert at <= a < at + 8 || d'.store.ram[a] == d.store.ram[a];
  }

  /** The received part grows by eight bytes, until the block counts as dirty. */
  lemma StillReceiving(d: Device, d': Device, a: nat)
    requires d.wr.active && d.wr.count < 64
    requires d'.wr.page * BLOCK_SIZE + d'.wr.count * 8 == d.wr.page * BLOCK_SIZE + d.wr.count * 8 + 8
    requires d.wr.count < 63 ==> d'.wr.active && d'.wr.count == d.wr.count + 1 && d'.logicalBlock == d.logicalBlock
    ensures
      var at := (d.logicalBlock + d.wr.page) * BLOCK_SIZE + d.wr.count * 8;
      Receiving(d, a) || at <= a < at + 8 ==>
        if d.wr.count < 63 then Receiving(d', a) else a / BLOCK_SIZE == d.logicalBlock + d.wr.page
  {}

  lemma TakeDataKeeps(s: System, p: Received)
    requires Inv(s) && s.host.phase.DataOut? && MaySend(s.host, s.sent, p)
    ensures Inv(s.(dev := TakeData(s.dev, p), host := Take(s.host, s.sent, p)))
  {
    var d, h := s.dev, s.host;
    PayloadGrows(d, h, p);
    CountersAdvance(d, h, p);
    DataCoherent(d, h, p, s.lost);
    StatusAlone(d.out, d.tag);
    PhaseAgrees(s, p);
    DataOwed(s, p);
    hide TakeData, Take, Agrees, Pending, Coherent;
  }

  lemma PhaseAgrees(s: System, p: Received)
    requires Inv(s) && s.host.phase.DataOut? && MaySend(s.host, s.sent, p)
    ensures TakeData(s.dev, p).Valid() && Agrees(TakeData(s.dev, p), Take(s.host, s.sent, p))
  {
    hide Coherent, Pending, Csw, Chunks, Mark;
    PayloadGrows(s.dev, s.host, p);
    CountersAdvance(s.dev, s.host, p);
    hide TakeData;
  }

  lemma DataOwed(s: System, p: Received)
    requires Inv(s) && s.host.phase.DataOut? && MaySend(s.host, s.sent, p)
    ensures
      var d, h := TakeData(s.dev, p), Take(s.host, s.sent, p);
      |d.out.queue| <= 2 && Reads(d) && h.answers == s.sent + Pending(d)
  {
    hide Coherent, Csw, Chunks, Mark;
    CountersAdvance(s.dev, s.host, p);
    StatusAlone(s.dev.out, s.dev.tag);
    assert s.sent + [] == s.sent;
    hide TakeData;
  }

  // ------------------------------------------------------------ command blocks

  /** Data and status queued together. */
  lemma DataAndStatus(out: Outgoing, buffer: Buffer, length: nat, tag: seq<byte>)
    requires out.Valid() && |tag| == 4 && out.queue == []
    requires buffer != CswBuffer && length <= |out.Content(buffer)|
    ensures
      var r := SendStatus(SendData(out, buffer, length), tag);
      && |r.queue| == 2 && r.done == 0 && r.data == out.data
      && Stream(r.Messages(), 0) == Chunks(out.Content(buffer)[..length]) + Chunks(Csw(tag))
  {
    var r := SendStatus(SendData(out, buffer, length), tag);
    var m := out.Content(buffer)[..length];
    assert r.queue == [Queued(buffer, length), Queued(CswBuffer, CSW_LENGTH)];
    assert r.Messages()[1] == Csw(tag)[..CSW_LENGTH] == Csw(tag);
    assert r.Messages() == [m] + [Csw(tag)];
    OneMessage(m);
    StreamAppend([m], 0, Csw(tag));
  }

  /** A READ or WRITE on the disk has an address that fits the device's 16 bits. */
  lemma LbaFits(cbw: seq<byte>)
    requires |cbw| == CBW_SIZE && InRange(cbw) && (Opcode(cbw) == READ || Opcode(cbw) == WRITE)
    ensures Lba(cbw) == Big16(cbw[19], cbw[20]) && Length(cbw) == Big16(cbw[22], cbw[23]) <= BLOCKS
  {}

  lemma InquiryAgrees()
    ensures InquiryData() == INQUIRY_ANSWER && INQUIRY_ANSWER[..36] == INQUIRY_ANSWER
  {}

  /** The device's reply is the plain disk's. */
  lemma RepliesAgree(op: byte, data: seq<byte>)
    requires |data| == DATA_LENGTH && op != READ
    ensures
      match ReplyTo(op, data)
      case NoReply => ReplyData(op, data) == None && ScratchAfter(op, data) == data
      case StatusOnly => ReplyData(op, data) == Some([]) && ScratchAfter(op, data) == data
      case DataThenStatus(left, buffer, length) =>
        && length > 0 && ScratchAfter(op, data) == left
        && ReplyData(op, data) == Some(if buffer == DataBuffer then left[..length] else Zeros(length))
  {
    if op == INQUIRY {
      InquiryAgrees();
    } else if op == READ_CAPACITY {
      assert (CAPACITY_ANSWER + data[8..])[..8] == CAPACITY_ANSWER;
    } else if op == MODE_SENSE {
      assert (MODE_ANSWER + data[14..])[..0x23] == MODE_ANSWER + data[14..35];
    } else if op == READ_FORMAT_CAPACITIES {
      assert Zeros(4) == [0, 0, 0, 0];
    }
  }

  /** The state in which a complete command block is executed. */
  ghost predicate Ready(s: System) {
    Inv(s) && s.host.phase == Command([]) && Silent(s.dev) && InRange(s.dev.intake.cbw)
  }

  lemma ReadyOwesNothing(s: System)
    requires Ready(s)
    ensures s.host.answers == s.sent
  {
    PendingNone(s.dev);
  }

  /** Executing a command touches no byte of RAM or EEPROM. */
  lemma NothingReceived(d: Device, d': Device, lost: set<int>)
    requires d.Valid() && d'.Valid() && Coherent(d, lost) && !d.wr.active
    requires d'.store == d.store && (d'.wr.active ==> d'.wr.count == 0)
    ensures Coherent(d', lost)
  {}

  lemma ReadStarts(s: System)
    requires Ready(s) && Opcode(s.dev.intake.cbw) == READ
    ensures Inv(s.(dev := ExecuteCbw(s.dev), host := Execute(s.host, s.dev.intake.cbw)))
  {
    hide Coherent, Chunks, Csw, Big16;
    var d, cbw := s.dev, s.dev.intake.cbw;
    var d', h' := ExecuteCbw(d), Execute(s.host, cbw);
    LbaFits(cbw);
    ReadyOwesNothing(s);
    NothingReceived(d, d', s.lost);
    ReadAnswer(d', s.host.image, Lba(cbw), Length(cbw));
  }

  /** A READ that has just begun owes its blocks and the status. */
  lemma ReadAnswer(d: Device, image: seq<byte>, lba: nat, n: nat)
    requires d.Valid() && lba + n <= BLOCKS && n >= 1 && image == d.store.ram
    requires d.logicalBlock == lba && d.rd == Reading(true, 0, 64, n, n) && Silent(d.(rd := d.rd.(active := false)))
    requires !d.wr.active
    ensures Reads(d) && Pending(d) == Chunks(Blocks(image, lba, n)) + Chunks(Csw(d.tag))
  {}

  lemma WriteStarts(s: System)
    requires Ready(s) && Opcode(s.dev.intake.cbw) == WRITE
    ensures Inv(s.(dev := ExecuteCbw(s.dev), host := Execute(s.host, s.dev.intake.cbw)))
  {
    hide Coherent, Csw, Big16;
    var d, cbw := s.dev, s.dev.intake.cbw;
    var d', h' := ExecuteCbw(d), Execute(s.host, cbw);
    LbaFits(cbw);
    ReadyOwesNothing(s);
    NothingReceived(d, d', s.lost);
    assert Splice(s.host.image, Lba(cbw) * BLOCK_SIZE, []) == s.host.image;
    assert Agrees(d', h');
  }

  lemma ReplyStarts(s: System)
    requires Ready(s) && Opcode(s.dev.intake.cbw) != READ && Opcode(s.dev.intake.cbw) != WRITE
    ensures Inv(s.(dev := ExecuteCbw(s.dev), host := Execute(s.host, s.dev.intake.cbw)))
  {
    hide Coherent, Chunks, Csw, ReplyTo, ReplyData, ScratchAfter;
    var d, cbw := s.dev, s.dev.intake.cbw;
    var d' := ExecuteCbw(d);
    RepliesAgree(Opcode(cbw), d.out.data);
    assert [] + Chunks(Csw(Tag(cbw))) == Chunks(Csw(Tag(cbw)));
    ReadyOwesNothing(s);
    NothingReceived(d, d', s.lost);
    match ReplyTo(Opcode(cbw), d.out.data)
    case NoReply =>
    case StatusOnly =>
      StatusAlone(d.out, Tag(cbw));
    case DataThenStatus(data, buffer, length) =>
      var out := d.out.(data := data);
      DataAndStatus(out, buffer, length, Tag(cbw));
      var message := out.Content(buffer)[..length];
      assert message == if buffer == DataBuffer then data[..length] else Zeros(length);
  }

  lemma ExecuteKeeps(s: System)
    requires Ready(s)
    ensures Inv(s.(dev := ExecuteCbw(s.dev), host := Execute(s.host, s.dev.intake.cbw)))
  {
    if Opcode(s.dev.intake.cbw) == READ {
      ReadStarts(s);
    } else if Opcode(s.dev.intake.cbw) == WRITE {
      WriteStarts(s);
    } else {
      ReplyStarts(s);
    }
  }

  /** The first packet of a command block is told by its signature. */
  lemma FirstPacket(s: System, p: Received)
    requires Inv(s) && s.host.phase == Command([]) && MaySend(s.host, s.sent, p)
    ensures Inv(s.(dev := WriteOut(s.dev, p), host := Take(s.host, s.sent, p)))
    ensures !WriteOut(s.dev, p).intake.finished
  {
    hide Coherent, Execute;
    var d, bytes := s.dev, p.Bytes();
    assert bytes[..4] == p.data[..4];
    assert [] + bytes == bytes;
    if bytes[..4] == CBW_SIGNATURE {
      PendingNone(d);
      assert Splice(d.intake.cbw, 0, bytes)[..p.len] == bytes;
    }
    SameStoreCoherent(d, WriteOut(d, p), s.lost);
  }

  /** The device's buffer after another packet of a command block. */
  lemma BufferGrows(i: Intake, cbw: seq<byte>, p: Received)
    requires i.Valid() && p.Valid() && i.progress && !i.finished
    requires cbw != [] && i.index == |cbw| < CBW_SIZE && i.cbw[..|cbw|] == cbw
    ensures
      var i', all := TakeCommand(i, p), cbw + p.Bytes();
      if |all| >= CBW_SIZE then i'.finished && !i'.progress && i'.cbw == all[..CBW_SIZE]
      else i' == i.(cbw := i'.cbw, index := |all|) && i'.cbw[..|all|] == all
  {
    var temp := Min(i.index + p.len, CBW_SIZE);
    var piece := p.data[..temp - i.index];
    assert Splice(i.cbw, i.index, piece)[..temp] == cbw + piece;
    assert (cbw + p.Bytes())[..temp] == cbw + piece;
  }

  lemma NextPacket(s: System, p: Received)
    requires Inv(s) && s.host.phase.Command? && s.host.phase.cbw != [] && MaySend(s.host, s.sent, p)
    ensures
      var d', h' := WriteOut(s.dev, p), Take(s.host, s.sent, p);
      if d'.intake.finished then Silent(d') && Inv(s.(dev := CommandTurn(d'), host := h'))
      else Inv(s.(dev := d', host := h'))
  {
    hide Coherent, Execute, ExecuteCbw, TakeCommand;
    var d, cbw := s.dev, s.host.phase.cbw;
    var d', h' := WriteOut(d, p), Take(s.host, s.sent, p);
    BufferGrows(d.intake, cbw, p);
    if d'.intake.finished {
      var ready := s.(dev := d'.(intake := d'.intake.(finished := false)), host := s.host.(phase := Command([])));
      SameStoreCoherent(d, ready.dev, s.lost);
      ExecuteKeeps(ready);
      ExecuteForgetsPhase(s.host, ready.dev.intake.cbw);
    } else {
      SameStoreCoherent(d, d', s.lost);
    }
  }

  lemma ExecuteForgetsPhase(h: Disk, cbw: seq<byte>)
    requires h.Valid() && |cbw| == CBW_SIZE && InRange(cbw)
    ensures Execute(h, cbw) == Execute(h.(phase := Command([])), cbw)
  {}

  /** Whatever packet the host may send, the device follows the disk: at once, or when it
      executes the command the packet completed. */
  lemma PacketKeeps(s: System, p: Received)
    requires Inv(s) && MaySend(s.host, s.sent, p)
    ensures
      var d', h' := WriteOut(s.dev, p), Take(s.host, s.sent, p);
      if d'.intake.finished then Silent(d') && Inv(s.(dev := CommandTurn(d'), host := h'))
      else Inv(s.(dev := d', host := h'))
  {
    hide CommandTurn, Execute, Coherent;
    if s.host.phase.DataOut? {
      TakeDataKeeps(s, p);
    } else if s.host.phase.cbw == [] {
      FirstPacket(s, p);
    } else {
      NextPacket(s, p);
    }
  }
}
