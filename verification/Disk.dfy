/** What the host is entitled to see: a plain disk of 128 blocks behind Bulk-Only Transport.
    No cache, no dirty map, no EEPROM, no ring: a command takes effect at once, and its whole
    answer is known from then on. */
module Disk {
  import opened Bytes
  import opened Bitmap
  import opened Transfer
  import opened Device

  /** Where the transport is: collecting a command block, or the payload of a WRITE. */
  datatype Phase =
    | Command(cbw: seq<byte>)
    | DataOut(lba: nat, blocks: nat, payload: seq<byte>, tag: seq<byte>)

  /** `image` is the disk; `scratch` the reply buffer, whose old bytes MODE SENSE shows;
      `answers` every packet the device owes the host since power-up. */
  datatype Disk = Disk(image: seq<byte>, phase: Phase, scratch: seq<byte>, answers: seq<seq<byte>>) {
    predicate Valid() {
      && |image| == RAM_SIZE && |scratch| == DATA_LENGTH
      && match phase
         case Command(cbw) => |cbw| < CBW_SIZE
         case DataOut(lba, blocks, payload, tag) =>
           |tag| == 4 && lba + blocks <= BLOCKS && |payload| < blocks * BLOCK_SIZE && |payload| % 8 == 0
    }
  }

  // ------------------------------------------------------ fields of a command block

  function Opcode(cbw: seq<byte>): byte
    requires |cbw| == CBW_SIZE
  {
    cbw[15]
  }

  function Tag(cbw: seq<byte>): (t: seq<byte>)
    requires |cbw| == CBW_SIZE
    ensures |t| == 4
  {
    cbw[4..8]
  }

  /** The 32-bit logical block address of READ and WRITE, most significant byte first. */
  function Lba(cbw: seq<byte>): nat
    requires |cbw| == CBW_SIZE
  {
    (cbw[17] as int) * 0x100_0000 + (cbw[18] as int) * 0x1_0000 + (cbw[19] as int) * 0x100 + (cbw[20] as int)
  }

  /** The number of blocks, likewise. */
  function Length(cbw: seq<byte>): nat
    requires |cbw| == CBW_SIZE
  {
    (cbw[22] as int) * 0x100 + (cbw[23] as int)
  }

  /** READ and WRITE stay on the disk and ask for at least one block. */
  predicate InRange(cbw: seq<byte>)
    requires |cbw| == CBW_SIZE
  {
    Opcode(cbw) == READ || Opcode(cbw) == WRITE ==> 1 <= Length(cbw) && Lba(cbw) + Length(cbw) <= BLOCKS
  }

  // ------------------------------------------------------------------ the disk

  function Blocks(image: seq<byte>, lba: nat, n: nat): (s: seq<byte>)
    requires |image| == RAM_SIZE && lba + n <= BLOCKS
    ensures |s| == n * BLOCK_SIZE
  {
    image[lba * BLOCK_SIZE..(lba + n) * BLOCK_SIZE]
  }

  /** The data of the answer to a command that is neither READ nor WRITE, none for a command
      that only has a status; a command the disk does not know gets nothing. MODE SENSE shows
      21 old bytes of the reply buffer. */
  function ReplyData(op: byte, scratch: seq<byte>): Option<seq<byte>>
    requires |scratch| == DATA_LENGTH
  {
    if op == TEST_UNIT_READY || op == PREVENT_REMOVAL || op == START_STOP_UNIT then Some([])
    else if op == INQUIRY then Some(INQUIRY_ANSWER)
    else if op == READ_CAPACITY then Some(CAPACITY_ANSWER)
    else if op == MODE_SENSE then Some(MODE_ANSWER + scratch[14..35])
    else if op == READ_FORMAT_CAPACITIES then Some([0, 0, 0, 0])
    else None
  }

  const INQUIRY_ANSWER: seq<byte> := [
    0x00, 0x80, 0x00, 0x02, 0x1f, 0x00, 0x00, 0x00,
    0x48, 0x65, 0x4b, 0x61, 0x20, 0x20, 0x20, 0x20,
    0x44, 0x49, 0x43, 0x20, 0x64, 0x72, 0x69, 0x76, 0x65, 0x20, 0x20, 0x20, 0x20, 0x20, 0x20, 0x20,
    0x30, 0x2e, 0x30, 0x31]
  const CAPACITY_ANSWER: seq<byte> := [0x00, 0x00, 0x00, 0x80, 0x00, 0x00, 0x02, 0x00]
  const MODE_ANSWER: seq<byte> := [
    0x35, 0x00, 0x00, 0x00, 0x05, 0x1e, 0xf0, 0x00, 0xff, 0x20, 0x00, 0x1c, 0xfc, 0x00]

  /** What a command leaves in the reply buffer. */
  function ScratchAfter(op: byte, scratch: seq<byte>): (r: seq<byte>)
    requires |scratch| == DATA_LENGTH
    ensures |r| == DATA_LENGTH
  {
    if op == READ then Zeros(8) + scratch[8..]
    else if op == INQUIRY then INQUIRY_ANSWER
    else if op == READ_CAPACITY then CAPACITY_ANSWER + scratch[8..]
    else if op == MODE_SENSE then MODE_ANSWER + scratch[14..]
    else scratch
  }

  /** The packets a complete command block is answered with: its data, then its status. A
      WRITE is answered when its payload has come. */
  function Answer(d: Disk, cbw: seq<byte>): seq<seq<byte>>
    requires d.Valid() && |cbw| == CBW_SIZE && InRange(cbw)
  {
    var status := Chunks(Csw(Tag(cbw)));
    if Opcode(cbw) == READ then Chunks(Blocks(d.image, Lba(cbw), Length(cbw))) + status
    else if Opcode(cbw) == WRITE then []
    else
      match ReplyData(Opcode(cbw), d.scratch)
      case None => []
      case Some(data) => (if data == [] then [] else Chunks(data)) + status
  }

  /** A complete command block takes effect. */
  function Execute(d: Disk, cbw: seq<byte>): (r: Disk)
    requires d.Valid() && |cbw| == CBW_SIZE && InRange(cbw)
    ensures r.Valid()
  {
    var scratch := ScratchAfter(Opcode(cbw), d.scratch);
    var phase := if Opcode(cbw) == WRITE then DataOut(Lba(cbw), Length(cbw), [], Tag(cbw)) else Command([]);
    Disk(d.image, phase, scratch, d.answers + Answer(d, cbw))
  }

  /** What a host that obeys sections 3.3 and 3.4 of Bulk-Only Transport 1.0 may send next,
      having received the packets `received`: it starts a command only when nothing is owed
      to it, keeps READ and WRITE on the disk, and fills its data packets. */
  predicate MaySend(d: Disk, received: seq<seq<byte>>, p: Received) {
    && d.Valid() && p.Valid()
    && match d.phase
       case DataOut(_, _, _, _) => p.len == 8
       case Command(cbw) =>
         if cbw == [] then p.len >= 4 && (p.data[..4] == CBW_SIGNATURE ==> received == d.answers)
         else |cbw| + p.len >= CBW_SIZE ==> InRange((cbw + p.Bytes())[..CBW_SIZE])
  }

  function Take(d: Disk, received: seq<seq<byte>>, p: Received): (r: Disk)
    requires MaySend(d, received, p)
    ensures r.Valid()
  {
    match d.phase
    case Command(cbw) =>
      if cbw == [] && p.Bytes()[..4] != CBW_SIGNATURE then d
      else if |cbw| + p.len >= CBW_SIZE then Execute(d, (cbw + p.Bytes())[..CBW_SIZE])
      else d.(phase := Command(cbw + p.Bytes()))
    case DataOut(lba, blocks, payload, tag) =>
      var payload := payload + p.Bytes();
      if |payload| == blocks * BLOCK_SIZE then
        d.(image := Splice(d.image, lba * BLOCK_SIZE, payload), phase := Command([]),
           answers := d.answers + Chunks(Csw(tag)))
      else d.(phase := DataOut(lba, blocks, payload, tag))
  }

  // ------------------------------------------------- what the disk itself promises

  predicate Recognised(op: byte) {
    op == READ || op == WRITE || ReplyData(op, Zeros(DATA_LENGTH)).Some?
  }

  lemma KnownAnyway(op: byte, scratch: seq<byte>)
    requires |scratch| == DATA_LENGTH && op != READ && op != WRITE
    ensures Recognised(op) <==> ReplyData(op, scratch).Some?
  {}

  /** Every recognised command but WRITE is answered with exactly one status, last, in two
      packets that carry the command's own tag, no residue and "passed". */
  lemma AnswerEndsWithStatus(d: Disk, cbw: seq<byte>)
    requires d.Valid() && |cbw| == CBW_SIZE && InRange(cbw)
    requires Recognised(Opcode(cbw)) && Opcode(cbw) != WRITE
    ensures
      var a := Answer(d, cbw);
      |a| >= 2 && Flatten(a[|a| - 2..]) == CSW_SIGNATURE + Tag(cbw) + [0, 0, 0, 0] + [0]
  {
    var a, status := Answer(d, cbw), Chunks(Csw(Tag(cbw)));
    ChunksOfMessage(Csw(Tag(cbw)));
    hide ReplyData;
    if Opcode(cbw) != READ {
      KnownAnyway(Opcode(cbw), d.scratch);
    }
    assert a[|a| - 2..] == status;
  }

  /** A READ of n blocks is answered with 64n full packets that concatenate to the blocks,
      and the status. */
  lemma ReadPackets(d: Disk, cbw: seq<byte>)
    requires d.Valid() && |cbw| == CBW_SIZE && InRange(cbw) && Opcode(cbw) == READ
    ensures
      var a, n := Answer(d, cbw), 64 * Length(cbw);
      && |a| == n + 2 && Flatten(a[n..]) == Csw(Tag(cbw))
      && Flatten(a[..n]) == Blocks(d.image, Lba(cbw), Length(cbw))
      && (forall i :: 0 <= i < n ==> |a[i]| == 8)
  {
    var blocks := Blocks(d.image, Lba(cbw), Length(cbw));
    ChunksOfMessage(blocks);
    ChunksOfMessage(Csw(Tag(cbw)));
    FlattenLength(Chunks(blocks));
    assert Answer(d, cbw)[..64 * Length(cbw)] == Chunks(blocks);
    assert Answer(d, cbw)[64 * Length(cbw)..] == Chunks(Csw(Tag(cbw)));
  }

  /** When all pieces but the last have eight bytes, the total fixes the last. */
  lemma {:induction false} FlattenLength(c: seq<seq<byte>>)
    requires c != [] && forall i :: 0 <= i < |c| - 1 ==> |c[i]| == 8
    ensures |Flatten(c)| == 8 * (|c| - 1) + |c[|c| - 1]|
  {
    if |c| > 1 {
      FlattenLength(c[1..]);
    }
  }

  predicate Full(ps: seq<Received>) {
    forall i :: 0 <= i < |ps| ==> ps[i].Valid() && ps[i].len == 8
  }

  function Payload(ps: seq<Received>): seq<byte>
    requires Full(ps)
  {
    if ps == [] then [] else ps[0].Bytes() + Payload(ps[1..])
  }

  /** The disk after data packets of a WRITE. */
  function TakeAll(d: Disk, ps: seq<Received>): Disk
    requires d.Valid() && Full(ps)
    requires ps == [] || (d.phase.DataOut? && |d.phase.payload| + 8 * |ps| <= d.phase.blocks * BLOCK_SIZE)
    decreases |ps|
  {
    if ps == [] then d else TakeAll(Take(d, d.answers, ps[0]), ps[1..])
  }

  /** A WRITE of n blocks takes exactly 64n data packets: with the last of them, and not
      before, its blocks hold the payload, every other byte is what it was, and one status
      with its tag is owed. */
  lemma {:induction false} WriteTakesPayload(d: Disk, ps: seq<Received>)
    requires d.Valid() && Full(ps) && d.phase.DataOut?
    requires |d.phase.payload| + 8 * |ps| <= d.phase.blocks * BLOCK_SIZE
    ensures
      var lba, payload := d.phase.lba, d.phase.payload + Payload(ps);
      && |payload| == |d.phase.payload| + 8 * |ps|
      && TakeAll(d, ps) ==
         if |payload| < d.phase.blocks * BLOCK_SIZE then d.(phase := d.phase.(payload := payload))
         else Disk(Splice(d.image, lba * BLOCK_SIZE, payload), Command([]), d.scratch,
                   d.answers + Chunks(Csw(d.phase.tag)))
    decreases |ps|
  {
    hide Csw, Chunks, Splice;
    if ps == [] {
      assert d.phase.payload + [] == d.phase.payload;
    } else {
      var d' := Take(d, d.answers, ps[0]);
      assert d.phase.payload + Payload(ps) == d.phase.payload + ps[0].Bytes() + Payload(ps[1..]);
      if d'.phase.DataOut? {
        WriteTakesPayload(d', ps[1..]);
      } else {
        assert ps[1..] == [];
      }
    }
  }
}
