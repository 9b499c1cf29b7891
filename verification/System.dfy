/** The firmware against the plain disk, over every run of the main loop. */
module System {
  import opened Bytes
  import opened Bitmap
  import opened Transfer
  import opened Device
  import opened Disk

  /** The device; the plain disk fed the same packets; the packets sent so far; and the
      EEPROM pages whose last write failed. */
  datatype System = System(dev: Device, host: Disk, sent: seq<seq<byte>>, lost: set<int>)

  // --------------------------------------------------------- what is still owed

  /** The packets a READ in progress still has to send. */
  function ReadRest(d: Device): seq<seq<byte>>
    requires d.Valid() && Reads(d)
  {
    if !d.rd.active then []
    else
      Chunks(d.store.ram[ReadAt(d)..(d.logicalBlock + d.rd.total) * BLOCK_SIZE]) + Chunks(Csw(d.tag))
  }

  /** The RAM address of the next packet of a READ. */
  function ReadAt(d: Device): nat
    requires d.rd.length <= d.rd.total
  {
    (d.logicalBlock + d.rd.total - d.rd.length) * BLOCK_SIZE + d.rd.count * 8
  }

  /** A READ in progress is inside the disk, and nothing is queued beside it. */
  predicate Reads(d: Device)
    requires d.Valid()
  {
    d.rd.active ==>
      && d.rd.read == BLOCK_SIZE / 8 && d.rd.count < BLOCK_SIZE / 8
      && 1 <= d.rd.length <= d.rd.total && d.logicalBlock + d.rd.total <= BLOCKS
      && d.out.queue == [] && !d.wr.active
  }

  /** All packets the device has still to send, if nothing else happens. */
  function Pending(d: Device): seq<seq<byte>>
    requires d.Valid() && Reads(d)
  {
    Stream(d.out.Messages(), d.out.done) + ReadRest(d)
  }

  // ------------------------------------------------------------------ coherence

  /** `a` lies in the part of a block being received that has come already. */
  predicate Receiving(d: Device, a: nat) {
    d.wr.active && a / BLOCK_SIZE == d.logicalBlock + d.wr.page && a % BLOCK_SIZE < d.wr.count * 8
  }

  /** `a` lies in a page of the block being flushed that has not been copied yet. */
  predicate Flushing(s: Store, a: nat) {
    s.writeBlock >= 0 && a / BLOCK_SIZE == s.writeBlock && a % BLOCK_SIZE / PAGE_SIZE >= s.page
  }

  /** The only reasons for a byte of RAM to differ from its EEPROM byte. */
  predicate Excused(d: Device, lost: set<int>, a: nat)
    requires a < RAM_SIZE
  {
    IsDirty(d.store.dirty, a / BLOCK_SIZE) || Flushing(d.store, a) || Receiving(d, a) || a / PAGE_SIZE in lost
  }

  ghost predicate Coherent(d: Device, lost: set<int>)
    requires d.Valid()
  {
    && (d.store.writeBlock < 0 ==> d.store.page == 0)
    && forall a: nat :: a < RAM_SIZE ==> d.store.ram[a] == d.store.eeprom[a] || Excused(d, lost, a)
  }

  // ------------------------------------------------ the device against the disk

  /** The device's globals say what the plain disk's phase says. */
  ghost predicate Agrees(d: Device, h: Disk)
    requires d.Valid() && h.Valid()
  {
    && Reads(d) && !d.intake.finished && d.wr.beginning == d.wr.active
    && d.out.data == h.scratch
    && match h.phase
       case Command(cbw) =>
         && !d.wr.active && d.store.ram == h.image
         && d.intake.progress == (cbw != [])
         && (cbw != [] ==> d.intake.index == |cbw| && d.intake.cbw[..|cbw|] == cbw && Silent(d))
       case DataOut(lba, blocks, payload, tag) =>
         && d.wr.active && !d.intake.progress && Silent(d)
         && d.logicalBlock == lba && d.wr.length == blocks && d.wr.write == BLOCK_SIZE / 8 && d.tag == tag
         && d.wr.count < BLOCK_SIZE / 8 && d.wr.page * BLOCK_SIZE + d.wr.count * 8 == |payload|
         && d.store.ram == Splice(h.image, lba * BLOCK_SIZE, payload)
  }

  /** Nothing is queued and no READ is in progress. */
  predicate Silent(d: Device) {
    d.out.queue == [] && !d.rd.active
  }

  ghost predicate Inv(s: System) {
    && s.dev.Valid() && s.host.Valid()
    && Agrees(s.dev, s.host)
    && |s.dev.out.queue| <= 2
    && s.host.answers == s.sent + Pending(s.dev)
    && Coherent(s.dev, s.lost)
  }

  // ------------------------------------------------------------- sending turns

  lemma PendingNone(d: Device)
    requires d.Valid() && Reads(d)
    ensures Pending(d) == [] <==> Silent(d)
  {
    if d.out.queue != [] {
      StreamHead(d.out.Messages(), d.out.done);
    }
  }

  lemma SendQueued(d: Device)
    requires d.Valid() && Reads(d) && !d.rd.active && d.out.queue != []
    ensures
      var (d', loads) := SendTurn(d);
      && Reads(d') && loads == [Pending(d)[0]] && Pending(d') == Pending(d)[1..]
      && d' == d.(out := d'.out) && d'.out.data == d.out.data && |d'.out.queue| <= |d.out.queue|
  {
    var out := SendNextData(d.out).0;
    StreamHead(d.out.Messages(), d.out.done);
    if d.out.queue[0].length - d.out.done > 8 {
      assert out.Messages() == d.out.Messages();
    } else {
      assert out.Messages() == d.out.Messages()[1..];
    }
  }

  lemma ReadInside(ram: seq<byte>, at: nat)
    requires |ram| == RAM_SIZE && at + 8 <= RAM_SIZE
    ensures ReadRam(ram, at, 8) == ram[at..at + 8]
  {
    assert forall i :: 0 <= i < 8 ==> ReadRam(ram, at, 8)[i] == ram[at + i];
  }

  lemma ChunkOff(ram: seq<byte>, at: nat, end: nat)
    requires at + 8 <= end <= |ram|
    ensures end > at + 8 ==> Chunks(ram[at..end]) == [ram[at..at + 8]] + Chunks(ram[at + 8..end])
    ensures end == at + 8 ==> Chunks(ram[at..end]) == [ram[at..at + 8]]
  {
    assert ram[at..end][..8] == ram[at..at + 8];
    assert ram[at..end][8..] == ram[at + 8..end];
  }

  /** One packet of a READ, the last one with the status behind it. */
  lemma ReadTurn(d: Device)
    requires d.Valid() && Reads(d) && d.rd.active
    ensures
      var (d', loads) := SendTurn(d);
      var at := ReadAt(d);
      && at + 8 <= (d.logicalBlock + d.rd.total) * BLOCK_SIZE && loads == [d.store.ram[at..at + 8]]
      && if at + 8 == (d.logicalBlock + d.rd.total) * BLOCK_SIZE then
           !d'.rd.active && d' == d.(rd := d'.rd, out := SendStatus(d.out, d.tag))
         else
           d'.rd.active && Reads(d') && ReadAt(d') == at + 8 && d' == d.(rd := d'.rd)
           && d'.rd.total == d.rd.total
  {
    hide ReadRam, Csw;
    ReadInside(d.store.ram, ReadAt(d));
  }

  lemma SendRead(d: Device)
    requires d.Valid() && Reads(d) && d.rd.active
    ensures
      var (d', loads) := SendTurn(d);
      && Reads(d') && |loads| == 1 && Pending(d) == loads + Pending(d')
      && d' == d.(out := d'.out, rd := d'.rd) && d'.out.data == d.out.data && |d'.out.queue| <= 1
  {
    hide Chunks, Stream, SendTurn, Csw, ReadRest;
    ReadTurn(d);
    RestOff(d);
    NothingQueued(d.out);
    var d' := SendTurn(d).0;
    RestIs(d');
    if d'.rd.active {
      NothingQueued(d'.out);
    } else {
      StatusAlone(d.out, d.tag);
    }
  }

  /** The rest of a READ begins with the next eight bytes. */
  lemma RestOff(d: Device)
    requires d.Valid() && Reads(d) && d.rd.active
    ensures
      var at, end := ReadAt(d), (d.logicalBlock + d.rd.total) * BLOCK_SIZE;
      && at + 8 <= end <= RAM_SIZE
      && ReadRest(d) ==
         [d.store.ram[at..at + 8]] +
         ((if end == at + 8 then [] else Chunks(d.store.ram[at + 8..end])) + Chunks(Csw(d.tag)))
  {
    hide Chunks, Csw;
    ChunkOff(d.store.ram, ReadAt(d), (d.logicalBlock + d.rd.total) * BLOCK_SIZE);
  }

  lemma RestIs(d: Device)
    requires d.Valid() && Reads(d)
    ensures !d.rd.active ==> ReadRest(d) == []
    ensures
      d.rd.active ==>
        ReadRest(d) ==
        Chunks(d.store.ram[ReadAt(d)..(d.logicalBlock + d.rd.total) * BLOCK_SIZE]) + Chunks(Csw(d.tag))
  {}

  lemma NothingQueued(out: Outgoing)
    requires out.Valid() && out.queue == []
    ensures Stream(out.Messages(), out.done) == []
  {}

  /** A status queued on its own. */
  lemma StatusAlone(out: Outgoing, tag: seq<byte>)
    requires out.Valid() && |tag| == 4 && out.queue == []
    ensures SendStatus(out, tag).done == 0
    ensures Stream(SendStatus(out, tag).Messages(), 0) == Chunks(Csw(tag))
  {
    var r := SendStatus(out, tag);
    assert r.queue == [Queued(CswBuffer, CSW_LENGTH)];
    assert r.Messages()[0] == Csw(tag)[..CSW_LENGTH] == Csw(tag);
    assert r.Messages() == [Csw(tag)];
    OneMessage(Csw(tag));
  }

  lemma OneMessage(m: seq<byte>)
    ensures Stream([m], 0) == Chunks(m)
  {
    assert m[0..] == m;
  }

  /** A turn with a free IN buffer loads exactly the next packet owed, and none when nothing
      is owed: nothing loaded is ever overwritten. */
  lemma SendKeeps(s: System)
    requires Inv(s)
    ensures
      var (d', loads) := SendTurn(s.dev);
      && loads == (if Pending(s.dev) == [] then [] else [Pending(s.dev)[0]])
      && Inv(s.(dev := d', sent := s.sent + loads))
  {
    var d := s.dev;
    var (d', loads) := SendTurn(d);
    PendingNone(d);
    if d.rd.active {
      SendRead(d);
    } else if d.out.queue != [] {
      SendQueued(d);
    }
    assert s.host.answers == s.sent + loads + Pending(d');
    SameStoreCoherent(d, d', s.lost);
  }

  lemma SameStoreCoherent(d: Device, d': Device, lost: set<int>)
    requires d.Valid() && d'.Valid() && Coherent(d, lost)
    requires d'.store == d.store && d'.wr == d.wr && d'.logicalBlock == d.logicalBlock
    ensures Coherent(d', lost)
  {}
}
