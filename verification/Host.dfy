/** The device from the host's side: the bytes of a command block on one end, the bytes of its
    answer on the other, as numbers and literals of the standards. No address, no length and no
    reply is read off here with a function that the device itself is modelled with. */
module Host {
  import opened Bytes
  import opened Bitmap
  import opened Transfer
  import opened Device
  import opened Disk
  import opened System
  import opened PacketSteps
  import Limits
  import Runs

  // ------------------------------------------------------------ the command block

  /** The last digit of `q` to base 256. */
  function Digit(q: nat): (b: byte)
    ensures b as int == q % 0x100
  {
    ToByte(q % 0x100)
  }

  /** Counting up, which the solver likes better than a conversion. */
  function ToByte(r: nat): (b: byte)
    requires r < 0x100
    ensures b as int == r
  {
    if r == 0 then 0 else
      OneUp(ToByte(r - 1));
      ToByte(r - 1) + 1
  }

  lemma OneUp(b: byte)
    requires b < 0xff
    ensures (b + 1) as int == b as int + 1
  {}

  /** A command block for `n` blocks from block `l` on: 31 bytes, with opcode, address and
      length in bytes 15, 17 to 20 and 22 to 23, most significant first (table 5.1 of
      Bulk-Only Transport 1.0, and the 10-byte commands of UFI). */
  function CommandBlock(op: byte, tag: seq<byte>, l: nat, n: nat): (cbw: seq<byte>)
    requires |tag| == 4
    ensures |cbw| == 31
  {
    [0x55, 0x53, 0x42, 0x43] + tag + [0, 0, 0, 0, 0, 0, 10] + [op, 0]
    + [Digit(l / 0x100_0000), Digit(l / 0x1_0000), Digit(l / 0x100), Digit(l)]
    + [0, Digit(n / 0x100), Digit(n)] + [0, 0, 0, 0, 0, 0, 0]
  }

  /** Any address and any length can be asked for. */
  lemma BlockAsks(op: byte, tag: seq<byte>, l: nat, n: nat)
    requires |tag| == 4 && l < 0x1_0000_0000 && n < 0x1_0000
    ensures Asks(CommandBlock(op, tag, l, n), op, l, n)
    ensures CommandBlock(op, tag, l, n)[..4] == [0x55, 0x53, 0x42, 0x43]
    ensures CommandBlock(op, tag, l, n)[4..8] == tag
  {
    hide Digit, CommandBlock;
    BlockBytes(op, tag, l, n);
  }

  lemma BlockBytes(op: byte, tag: seq<byte>, l: nat, n: nat)
    requires |tag| == 4
    ensures
      var cbw := CommandBlock(op, tag, l, n);
      && cbw[..4] == [0x55, 0x53, 0x42, 0x43] && cbw[4..8] == tag && cbw[15] == op
      && cbw[17] == Digit(l / 0x100_0000) && cbw[18] == Digit(l / 0x1_0000)
      && cbw[19] == Digit(l / 0x100) && cbw[20] == Digit(l)
      && cbw[22] == Digit(n / 0x100) && cbw[23] == Digit(n)
  {
    hide Digit;
  }

  predicate Asks(cbw: seq<byte>, op: byte, l: nat, n: nat) {
    && |cbw| == 31 && l < 0x1_0000_0000 && n < 0x1_0000 && cbw[15] == op
    && cbw[17] as int == l / 0x100_0000 && cbw[18] as int == l / 0x1_0000 % 0x100
    && cbw[19] as int == l / 0x100 % 0x100 && cbw[20] as int == l % 0x100
    && cbw[22] as int == n / 0x100 && cbw[23] as int == n % 0x100
  }

  /** What the plain disk takes for address and length. */
  lemma AddressMeans(cbw: seq<byte>, op: byte, l: nat, n: nat)
    requires Asks(cbw, op, l, n)
    ensures Opcode(cbw) == op && Lba(cbw) == l && Length(cbw) == n
  {
    FourDigits(l, l / 0x100_0000, l / 0x1_0000 % 0x100, l / 0x100 % 0x100);
  }

  lemma FourDigits(l: nat, a: nat, b: nat, c: nat)
    requires a == l / 0x100_0000 && b == l / 0x1_0000 % 0x100 && c == l / 0x100 % 0x100
    ensures l == a * 0x100_0000 + b * 0x1_0000 + c * 0x100 + l % 0x100
  {
    var high, low := l / 0x1_0000, l % 0x1_0000;
    assert high == a * 0x100 + b;
    assert l / 0x100 == high * 0x100 + low / 0x100;
    assert low == c * 0x100 + l % 0x100;
  }

  // ------------------------------------------------------------------- READ, WRITE

  /** For every 32-bit address and every length from one on, READ sends block (l + j) modulo
      128 as its block `j`, eight bytes at a time. */
  lemma ReadSends(d: Device, l: nat, n: nat, j: nat, i: nat)
    requires d.Valid() && d.out.queue == [] && Asks(d.intake.cbw, 0x28, l, n) && j < n && i < 64
    ensures
      var at := (l + j) % 128 * 512 + 8 * i;
      SendTurn(Limits.Sends(ExecuteCbw(d), 64 * j + i)).1 == [d.store.ram[at..at + 8]]
  {
    hide SendTurn, Limits.Sends, ExecuteCbw, Lba, Length, Opcode, Asks, Limits.ReadComes, Limits.BlocksSent,
         Device.Valid, Limits.RealBlock;
    PacketOf(j, i, n);
    ReadAsks(d, l, n, j);
    ReadPacket(d, 64 * j + i, j, i, (l + j) % 128);
  }

  lemma ReadAsks(d: Device, l: nat, n: nat, j: nat)
    requires d.Valid() && d.out.queue == [] && Asks(d.intake.cbw, 0x28, l, n)
    ensures Limits.ReadComes(d) && |d.intake.cbw| == 31
    ensures Length(d.intake.cbw) == n < 0x1_0000 && Limits.RealBlock(d.intake.cbw, j) == (l + j) % 128
  {
    AddressMeans(d.intake.cbw, 0x28, l, n);
    hide Lba, Length;
  }

  lemma ReadPacket(d: Device, k: nat, j: nat, i: nat, b: nat)
    requires Limits.ReadComes(d) && k < 64 * Limits.BlocksSent(Length(d.intake.cbw))
    requires k / 64 == j && k % 64 == i && Limits.RealBlock(d.intake.cbw, j) == b
    ensures b < 128 && SendTurn(Limits.Sends(ExecuteCbw(d), k)).1 == [d.store.ram[b * 512 + 8 * i..b * 512 + 8 * i + 8]]
  {
    hide SendTurn, Limits.Sends, ExecuteCbw, Lba, Length, Opcode, Limits.ReadComes, Limits.BlocksSent, Device.Valid,
         Limits.RealBlock;
    Limits.ReadModulo(d, k);
  }

  lemma PacketOf(j: nat, i: nat, n: nat)
    requires i < 64 && j < n
    ensures (64 * j + i) / 64 == j && (64 * j + i) % 64 == i && 64 * j + i < 64 * Limits.BlocksSent(n)
  {}

  /** And then it queues the status. */
  lemma ReadDone(d: Device, l: nat, n: nat)
    requires d.Valid() && d.out.queue == [] && Asks(d.intake.cbw, 0x28, l, n) && n >= 1
    ensures
      var r := Limits.Sends(ExecuteCbw(d), 64 * n);
      !r.rd.active && r.out.queue == [Queued(CswBuffer, 13)] && r.out.csw == Passed(d.intake.cbw[4..8])
  {
    AddressMeans(d.intake.cbw, 0x28, l, n);
    hide SendTurn, Limits.Sends, ExecuteCbw, Lba, Length, Opcode, Asks, SendStatus, Csw;
    Limits.ReadStarted(d);
    Limits.ReadEnds(ExecuteCbw(d), n);
    ReadKeepsTag(d);
    StatusQueued(ExecuteCbw(d));
  }

  /** The 13 bytes of a status: signature, the command's tag, no residue, passed (table 5.2 of
      Bulk-Only Transport 1.0). */
  function Passed(tag: seq<byte>): seq<byte> {
    [0x55, 0x53, 0x42, 0x53] + tag + [0, 0, 0, 0] + [0]
  }

  lemma StatusIsPassed(tag: seq<byte>)
    requires |tag| == 4
    ensures Csw(tag) == Passed(tag)
  {}

  lemma StatusQueued(d: Device)
    requires d.Valid() && d.out.queue == []
    ensures SendStatus(d.out, d.tag).queue == [Queued(CswBuffer, 13)]
    ensures SendStatus(d.out, d.tag).csw == Passed(d.tag)
  {
    StatusIsPassed(d.tag);
  }

  lemma ReadKeepsTag(d: Device)
    requires d.Valid() && Opcode(d.intake.cbw) == READ
    ensures ExecuteCbw(d).tag == d.intake.cbw[4..8] && ExecuteCbw(d).out.queue == d.out.queue
  {
    hide Big16;
  }

  /** The device after data packets. */
  function TakesAll(d: Device, ps: seq<Received>): (r: Device)
    requires d.Valid() && Full(ps)
    ensures r.Valid()
    decreases |ps|
  {
    if ps == [] then d else TakesAll(WriteOut(d, ps[0]), ps[1..])
  }

  lemma {:induction false} DeviceFollows(s: System, ps: seq<Received>)
    requires Inv(s) && Full(ps) && s.host.phase.DataOut?
    requires |s.host.phase.payload| + 8 * |ps| <= s.host.phase.blocks * BLOCK_SIZE
    ensures Inv(s.(dev := TakesAll(s.dev, ps), host := TakeAll(s.host, ps)))
    decreases |ps|
  {
    hide Inv, TakeData, Take;
    Runs.InvFacts(s);
    if ps != [] {
      DataPhase(s, ps[0]);
      var t := s.(dev := TakeData(s.dev, ps[0]), host := Take(s.host, s.sent, ps[0]));
      TakeDataKeeps(s, ps[0]);
      if t.host.phase.DataOut? {
        DeviceFollows(t, ps[1..]);
      } else {
        assert ps[1..] == [];
      }
    }
  }

  lemma DataPhase(s: System, p: Received)
    requires Inv(s) && s.host.phase.DataOut? && p.Valid() && p.len == 8
    ensures MaySend(s.host, s.sent, p) && Take(s.host, s.sent, p) == Take(s.host, s.host.answers, p)
    ensures s.dev.Valid() && s.dev.wr.active && WriteOut(s.dev, p) == TakeData(s.dev, p)
    ensures
      var phase, h := s.host.phase, Take(s.host, s.sent, p);
      if |phase.payload| + 8 == phase.blocks * BLOCK_SIZE then h.phase == Command([])
      else h.phase == phase.(payload := phase.payload + p.Bytes())
  {
    hide TakeData, Splice, Chunks, Csw;
  }

  /** A WRITE on the disk: after its 64n data packets, the RAM of the device, and the plain
      disk, hold the payload from byte 512l on, and are unchanged elsewhere. */
  lemma WriteLands(s: System, l: nat, n: nat, ps: seq<Received>)
    requires Ready(s) && s.dev.Valid() && Asks(s.dev.intake.cbw, 0x2a, l, n) && Full(ps) && |ps| == 64 * n
    ensures 1 <= n && l + n <= 128 && |Payload(ps)| == 512 * n
    ensures
      var d := TakesAll(ExecuteCbw(s.dev), ps);
      && d.store.ram == Splice(s.dev.store.ram, 512 * l, Payload(ps))
      && d.store.ram == TakeAll(Execute(s.host, s.dev.intake.cbw), ps).image
      && Reads(d) && Pending(d) == Chunks(Passed(s.dev.intake.cbw[4..8]))
  {
    hide Inv, TakeAll, TakesAll, ExecuteCbw, Lba, Length, Payload, Splice, Csw, Chunks, Execute, Pending, Reads;
    var cbw := s.dev.intake.cbw;
    Runs.InvFacts(s);
    AddressMeans(cbw, 0x2a, l, n);
    ExecuteKeeps(s);
    WriteBegins(s, l, n);
    var h := Execute(s.host, cbw);
    var t := s.(dev := ExecuteCbw(s.dev), host := h);
    WriteTakesPayload(h, ps);
    DeviceFollows(t, ps);
    assert [] + Payload(ps) == Payload(ps);
    StatusIsPassed(cbw[4..8]);
    WriteDone(s, t.(dev := TakesAll(t.dev, ps), host := TakeAll(h, ps)));
  }

  lemma WriteBegins(s: System, l: nat, n: nat)
    requires Ready(s) && s.dev.Valid() && s.host.Valid()
    requires |s.dev.intake.cbw| == 31 && Opcode(s.dev.intake.cbw) == 0x2a
    requires Lba(s.dev.intake.cbw) == l && Length(s.dev.intake.cbw) == n
    ensures 1 <= n && l + n <= 128 && s.host.answers == s.sent && s.dev.store.ram == s.host.image
    ensures
      Execute(s.host, s.dev.intake.cbw) ==
      s.host.(phase := DataOut(l, n, [], s.dev.intake.cbw[4..8]))
  {
    hide Chunks, Csw, Lba, Length;
    ReadyOwesNothing(s);
    assert s.host.answers + [] == s.host.answers;
  }

  lemma WriteDone(s: System, t: System)
    requires Inv(t) && t.host.phase == Command([]) && t.sent == s.sent == s.host.answers
    requires |s.dev.intake.cbw| == 31
    requires t.host.answers == s.host.answers + Chunks(Csw(Tag(s.dev.intake.cbw)))
    ensures t.dev.Valid() && t.dev.store.ram == t.host.image && Reads(t.dev)
    ensures Pending(t.dev) == Chunks(Csw(s.dev.intake.cbw[4..8]))
  {
    hide Chunks, Csw, Stream;
    var owed := Chunks(Csw(s.dev.intake.cbw[4..8]));
    assert (t.sent + Pending(t.dev))[|t.sent|..] == Pending(t.dev);
    assert (t.sent + owed)[|t.sent|..] == owed;
  }

  // ------------------------------------------------------------------- the answers

  /** The packets of an answer: those of the data, all full but the last, and two that make up
      the status. */
  predicate Says(packets: seq<seq<byte>>, data: seq<byte>, tag: seq<byte>) {
    var n := (|data| + 7) / 8;
    && |packets| == n + 2
    && (forall i :: 0 <= i < n - 1 ==> |packets[i]| == 8)
    && Flatten(packets[..n]) == data && Flatten(packets[n..]) == Passed(tag)
  }

  lemma DataThenStatusSays(data: seq<byte>, tag: seq<byte>)
    requires |tag| == 4
    ensures Says((if data == [] then [] else Chunks(data)) + Chunks(Csw(tag)), data, tag)
  {
    hide Chunks, Csw, Flatten;
    StatusIsPassed(tag);
    ChunksOfMessage(Csw(tag));
    ChunksOfMessage(data);
    var first, second := if data == [] then [] else Chunks(data), Chunks(Csw(tag));
    assert (first + second)[..|first|] == first && (first + second)[|first|..] == second;
    FlattenNone();
  }

  lemma FlattenNone()
    ensures Flatten([]) == []
  {}

  /** A number, most significant byte first. */
  function Number(s: seq<byte>): nat {
    if s == [] then 0 else Number(s[..|s| - 1]) * 0x100 + (s[|s| - 1] as int)
  }

  /** TEST UNIT READY, START STOP UNIT and PREVENT REMOVAL get their status and no data. */
  lemma StatusAlone(h: Disk, cbw: seq<byte>)
    requires h.Valid() && |cbw| == 31 && cbw[15] in {0x00, 0x1b, 0x1e}
    ensures InRange(cbw) && Says(Answer(h, cbw), [], cbw[4..8])
  {
    hide Chunks, Csw, Says;
    DataThenStatusSays([], cbw[4..8]);
  }

  /** READ CAPACITY: eight bytes, two numbers; 128, which is one more than the last block, and
      512 bytes in a block. */
  lemma Capacity(h: Disk, cbw: seq<byte>) returns (data: seq<byte>)
    requires h.Valid() && |cbw| == 31 && cbw[15] == 0x25
    ensures InRange(cbw) && Says(Answer(h, cbw), data, cbw[4..8])
    ensures |data| == 8 && Number(data[..4]) == 128 && Number(data[4..]) == 512
    ensures |h.image| == 128 * 512
  {
    hide Chunks, Csw, Says;
    data := [0x00, 0x00, 0x00, 0x80, 0x00, 0x00, 0x02, 0x00];
    DataThenStatusSays(data, cbw[4..8]);
    FourBytes(data[..4]);
    FourBytes(data[4..]);
  }

  lemma FourBytes(s: seq<byte>)
    requires |s| == 4
    ensures
      Number(s) == (s[0] as int) * 0x100_0000 + (s[1] as int) * 0x1_0000 + (s[2] as int) * 0x100 + (s[3] as int)
  {
    assert Number(s[..3]) == Number(s[..3][..2]) * 0x100 + (s[2] as int);
    assert s[..3][..2] == s[..2] && s[..2][..1] == s[..1] && s[..1][..0] == [];
    assert Number(s[..2]) == Number(s[..1]) * 0x100 + (s[1] as int);
    assert Number(s[..1]) == Number([]) * 0x100 + (s[0] as int);
  }

  /** INQUIRY: 36 bytes: a removable direct-access device, "HeKa    ", "DIC drive       ",
      "0.01". */
  lemma Inquiry(h: Disk, cbw: seq<byte>)
    requires h.Valid() && |cbw| == 31 && cbw[15] == 0x12
    ensures InRange(cbw)
    ensures
      Says(Answer(h, cbw),
           [0x00, 0x80, 0x00, 0x02, 0x1f, 0x00, 0x00, 0x00,
            0x48, 0x65, 0x4b, 0x61, 0x20, 0x20, 0x20, 0x20,
            0x44, 0x49, 0x43, 0x20, 0x64, 0x72, 0x69, 0x76, 0x65, 0x20, 0x20, 0x20, 0x20, 0x20, 0x20, 0x20,
            0x30, 0x2e, 0x30, 0x31], cbw[4..8])
  {
    hide Chunks, Csw, Says;
    DataThenStatusSays(INQUIRY_ANSWER, cbw[4..8]);
  }

  /** MODE SENSE: 35 bytes, of which only the first 14 are the command's own. */
  lemma ModeSense(h: Disk, cbw: seq<byte>)
    requires h.Valid() && |cbw| == 31 && cbw[15] == 0x1a
    ensures InRange(cbw)
    ensures Says(Answer(h, cbw), [0x35, 0, 0, 0, 0x05, 0x1e, 0xf0, 0, 0xff, 0x20, 0, 0x1c, 0xfc, 0] +
                                 h.scratch[14..35], cbw[4..8])
  {
    hide Chunks, Csw, Says;
    DataThenStatusSays(MODE_ANSWER + h.scratch[14..35], cbw[4..8]);
  }

  /** READ FORMAT CAPACITIES: four zeros. */
  lemma FormatCapacities(h: Disk, cbw: seq<byte>)
    requires h.Valid() && |cbw| == 31 && cbw[15] == 0x23
    ensures InRange(cbw) && Says(Answer(h, cbw), [0, 0, 0, 0], cbw[4..8])
  {
    hide Chunks, Csw, Says;
    DataThenStatusSays([0, 0, 0, 0], cbw[4..8]);
  }

  /** READ of blocks on the disk: its blocks. */
  lemma ReadAnswered(h: Disk, cbw: seq<byte>, l: nat, n: nat)
    requires h.Valid() && Asks(cbw, 0x28, l, n) && 1 <= n && l + n <= 128
    ensures InRange(cbw) && Says(Answer(h, cbw), h.image[512 * l..512 * (l + n)], cbw[4..8])
  {
    hide Chunks, Csw, Says, Lba, Length;
    AddressMeans(cbw, 0x28, l, n);
    DataThenStatusSays(h.image[512 * l..512 * (l + n)], cbw[4..8]);
  }

  /** WRITE has no answer yet, and any other opcode never has. */
  lemma NoAnswer(h: Disk, cbw: seq<byte>)
    requires h.Valid() && |cbw| == 31 && InRange(cbw)
    requires cbw[15] !in {0x00, 0x12, 0x1a, 0x1b, 0x1e, 0x23, 0x25, 0x28}
    ensures Answer(h, cbw) == []
  {
    hide Chunks, Csw, Lba, Length;
  }

  // ------------------------------------------------------------ the way of a command

  /** A host that was answered may send any command block on the disk, in four packets, and
      with the fourth it takes effect. */
  lemma CommandArrives(h: Disk, cbw: seq<byte>, a: Received, b: Received, c: Received, e: Received)
    requires h.Valid() && h.phase == Command([]) && |cbw| == 31 && InRange(cbw)
    requires cbw[..4] == [0x55, 0x53, 0x42, 0x43]
    requires a.Valid() && b.Valid() && c.Valid() && e.Valid() && a.len == b.len == c.len == 8 && e.len == 7
    requires a.Bytes() == cbw[..8] && b.Bytes() == cbw[8..16] && c.Bytes() == cbw[16..24] && e.Bytes() == cbw[24..]
    ensures MaySend(h, h.answers, a)
    ensures
      var h1 := Take(h, h.answers, a);
      && MaySend(h1, h.answers, b)
      && var h2 := Take(h1, h.answers, b);
         && MaySend(h2, h.answers, c)
         && var h3 := Take(h2, h.answers, c);
            MaySend(h3, h.answers, e) && Take(h3, h.answers, e) == Execute(h, cbw)
  {
    hide Execute, InRange;
    assert [] + cbw[..8] == cbw[..8] && cbw[..8] + cbw[8..16] == cbw[..16] && cbw[..16] + cbw[16..24] == cbw[..24];
    assert (cbw[..24] + cbw[24..])[..31] == cbw;
    assert a.data[..4] == a.Bytes()[..4] == cbw[..4];
    ExecuteForgetsPhase(h, cbw);
    ExecuteForgetsPhase(h.(phase := Command(cbw[..24])), cbw);
  }

  /** Anything else that comes first is ignored. */
  lemma OthersIgnored(h: Disk, p: Received)
    requires h.Valid() && h.phase == Command([]) && p.Valid() && p.len >= 4
    requires p.data[..4] != [0x55, 0x53, 0x42, 0x43]
    ensures MaySend(h, [], p) && Take(h, [], p) == h
  {
    assert p.Bytes()[..4] == p.data[..4];
  }
}
