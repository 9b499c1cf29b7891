/** Where the code leaves the path the specification asks for. */
module Limits {
  import opened Bytes
  import opened Bitmap
  import opened Device
  import opened Disk

  /** A READ has just started. */
  predicate JustReading(d: Device, n: nat) {
    d.Valid() && d.rd == Reading(true, 0, BLOCK_SIZE / 8, n, n) && d.out.queue == []
  }

  /** The device after `k` turns with a free IN buffer and nothing else. */
  function Sends(d: Device, k: nat): (r: Device)
    requires d.Valid()
    ensures r.Valid() && r.store == d.store
  {
    if k == 0 then d else SendTurn(Sends(d, k - 1)).0
  }

  /** The counter is decremented before it is tested: no blocks asked for are 65536 sent. */
  function BlocksSent(n: nat): nat {
    if n == 0 then 0x1_0000 else n
  }

  lemma Counters(n: nat, q: nat)
    requires n < 0x1_0000 && q < BlocksSent(n)
    ensures (n - (n - q) % 0x1_0000) % 0x1_0000 == q
    ensures ((n - q) % 0x1_0000 - 1) % 0x1_0000 == (n - (q + 1)) % 0x1_0000
    ensures (n - (q + 1)) % 0x1_0000 == 0 <==> q + 1 == BlocksSent(n)
  {}

  function ReadingAt(d: Device, n: nat, k: nat): Device {
    d.(rd := Reading(true, k % 64, BLOCK_SIZE / 8, (n - k / 64) % 0x1_0000, n))
  }

  /** One packet of any READ, in range or not. */
  lemma OnePacket(d: Device, n: nat, k: nat)
    requires JustReading(d, n) && k < 64 * BlocksSent(n)
    ensures ReadingAt(d, n, k).Valid()
    ensures
      var (r, loads) := SendTurn(ReadingAt(d, n, k));
      && loads == [ReadRam(d.store.ram, d.logicalBlock * BLOCK_SIZE + 8 * k, 8)]
      && r == if k + 1 == 64 * BlocksSent(n) then
                d.(rd := Reading(false, 64, BLOCK_SIZE / 8, 0, n), out := SendStatus(d.out, d.tag))
              else ReadingAt(d, n, k + 1)
  {
    hide ReadRam, SendStatus;
    Counters(n, k / 64);
    assert k % 64 == 63 ==> (k + 1) / 64 == k / 64 + 1 && (k + 1) % 64 == 0;
    assert k % 64 < 63 ==> (k + 1) / 64 == k / 64 && (k + 1) % 64 == k % 64 + 1;
    assert Loaded(None) == [] && d.out == d.out.(done := d.out.done);
  }

  /** Every READ, whatever its address and length: packet `k` is the eight bytes at the
      address modulo 64 KiB. */
  lemma {:induction false} ReadPackets(d: Device, n: nat, k: nat)
    requires JustReading(d, n) && k < 64 * BlocksSent(n)
    ensures Sends(d, k) == ReadingAt(d, n, k)
    ensures SendTurn(Sends(d, k)).1 == [ReadRam(d.store.ram, d.logicalBlock * BLOCK_SIZE + 8 * k, 8)]
  {
    hide SendTurn, ReadRam;
    OnePacket(d, n, k);
    if k > 0 {
      ReadPackets(d, n, k - 1);
      OnePacket(d, n, k - 1);
    }
  }

  /** The status follows the last packet of the block that brings the counter to zero. */
  lemma ReadEnds(d: Device, n: nat)
    requires JustReading(d, n)
    ensures
      var r := Sends(d, 64 * BlocksSent(n));
      !r.rd.active && r.out == SendStatus(d.out, d.tag)
  {
    hide SendTurn, ReadRam, SendStatus;
    var k := 64 * BlocksSent(n) - 1;
    ReadPackets(d, n, k);
    OnePacket(d, n, k);
  }

  /** A READ ends after the blocks it asked for exactly when it asked for at least one. */
  lemma ReadLengthIff(d: Device, n: nat)
    requires JustReading(d, n)
    ensures !Sends(d, 64 * n).rd.active <==> n >= 1
  {
    if n >= 1 {
      ReadEnds(d, n);
    }
  }

  // ----------------------------------------------------- addresses outside the disk

  /** A READ command is complete and nothing is queued. */
  predicate ReadComes(d: Device) {
    d.Valid() && Opcode(d.intake.cbw) == READ && d.out.queue == []
  }

  /** Where block `j` of a command really is: only seven bits of the 32-bit address count. */
  function RealBlock(cbw: seq<byte>, j: nat): (b: nat)
    requires |cbw| == CBW_SIZE
    ensures b < BLOCKS
  {
    (Lba(cbw) + j) % BLOCKS
  }

  /** The device keeps the lower half of the address. */
  lemma LbaHalves(cbw: seq<byte>)
    requires |cbw| == CBW_SIZE
    ensures Lba(cbw) == Big16(cbw[17], cbw[18]) * 0x1_0000 + Big16(cbw[19], cbw[20])
    ensures Length(cbw) == Big16(cbw[22], cbw[23])
  {}

  lemma OnlySevenBits(high: nat, low: nat, j: nat, i: nat)
    requires low < 0x1_0000 && i < BLOCK_SIZE
    ensures (low * BLOCK_SIZE + j * BLOCK_SIZE + i) % 0x1_0000 == (high * 0x1_0000 + low + j) % BLOCKS * BLOCK_SIZE + i
  {
    var q, r := (low + j) / BLOCKS, (low + j) % BLOCKS;
    assert (high * 0x1_0000 + low + j) % BLOCKS == r by {
      assert high * 0x1_0000 + low + j == BLOCKS * (512 * high + q) + r;
    }
    assert low * BLOCK_SIZE + j * BLOCK_SIZE + i == 0x1_0000 * q + (r * BLOCK_SIZE + i);
  }

  lemma ReadRamBlock(ram: seq<byte>, at: nat, to: nat)
    requires |ram| == RAM_SIZE && to + 8 <= RAM_SIZE && at % 0x1_0000 == to
    ensures ReadRam(ram, at, 8) == ram[to..to + 8]
  {
    var s := ReadRam(ram, at, 8);
    forall i | 0 <= i < 8 ensures s[i] == ram[to..to + 8][i] {
      assert Wrap16(at + i) == to + i;
    }
  }

  /** Every READ, whatever its 32-bit address and its length: block `j` of the answer is block
      (address + j) modulo 128 of the RAM. */
  lemma ReadModulo(d: Device, k: nat)
    requires ReadComes(d) && k < 64 * BlocksSent(Length(d.intake.cbw))
    ensures
      var at := RealBlock(d.intake.cbw, k / 64) * BLOCK_SIZE + 8 * (k % 64);
      SendTurn(Sends(ExecuteCbw(d), k)).1 == [d.store.ram[at..at + 8]]
  {
    hide SendTurn, Sends, ReadRam;
    var e, cbw := ExecuteCbw(d), d.intake.cbw;
    ReadStarted(d);
    ReadPackets(e, Length(cbw), k);
    LbaHalves(cbw);
    OnlySevenBits(Big16(cbw[17], cbw[18]), e.logicalBlock, k / 64, 8 * (k % 64));
    var at := RealBlock(cbw, k / 64) * BLOCK_SIZE + 8 * (k % 64);
    ReadRamBlock(d.store.ram, e.logicalBlock * BLOCK_SIZE + 8 * k, at);
  }

  lemma ReadStarted(d: Device)
    requires ReadComes(d)
    ensures JustReading(ExecuteCbw(d), Length(d.intake.cbw))
    ensures ExecuteCbw(d).logicalBlock == Big16(d.intake.cbw[19], d.intake.cbw[20])
  {}

  /** Packet `k` is the one asked for: the bytes at that place of a disk that has it. */
  predicate AsAsked(d: Device, k: nat)
    requires ReadComes(d)
  {
    var at := Lba(d.intake.cbw) * BLOCK_SIZE + 8 * k;
    at + 8 <= RAM_SIZE && SendTurn(Sends(ExecuteCbw(d), k)).1 == [d.store.ram[at..at + 8]]
  }

  /** A READ of at least one block sends the blocks asked for if and only if they are on the
      disk. READ CAPACITY names block 128 as the last one: by ReadModulo, a READ of it sends
      block 0. */
  lemma ReadAsAskedIff(d: Device)
    requires ReadComes(d) && Length(d.intake.cbw) >= 1
    ensures (forall k :: 0 <= k < 64 * Length(d.intake.cbw) ==> AsAsked(d, k)) <==>
            Lba(d.intake.cbw) + Length(d.intake.cbw) <= BLOCKS
  {
    hide SendTurn, Sends, ExecuteCbw;
    var cbw := d.intake.cbw;
    if Lba(cbw) + Length(cbw) <= BLOCKS {
      forall k | 0 <= k < 64 * Length(cbw) ensures AsAsked(d, k) {
        ReadModulo(d, k);
        assert RealBlock(cbw, k / 64) == Lba(cbw) + k / 64;
      }
    } else {
      assert !AsAsked(d, 64 * Length(cbw) - 1);
    }
  }

  // ------------------------------------------------------------- WRITE, first block

  lemma {:induction false} WriteWrapped(ram: seq<byte>, at: nat, to: nat, data: seq<byte>)
    requires |ram| == RAM_SIZE && at % 0x1_0000 == to && to + |data| <= RAM_SIZE
    ensures WriteRam(ram, at, data) == Splice(ram, to, data)
  {
    hide Wrap16, Splice;
    if data == [] {
      NothingSpliced(ram, to);
    } else {
      var n := |data| - 1;
      WriteWrapped(ram, at, to, data[..n]);
      WrapsTo(at, to, n);
      SpliceNext(ram, to, data, n);
      assert data[..n + 1] == data;
    }
  }

  lemma WrapsTo(at: nat, to: nat, n: nat)
    requires at % 0x1_0000 == to && to + n < 0x1_0000
    ensures Wrap16(at + n) == to + n
  {}

  /** The data packets of a WRITE, up to the end of its first block. */
  function Stores(d: Device, ps: seq<Received>): (r: Device)
    requires d.Valid() && Full(ps)
    ensures r.Valid()
    decreases |ps|
  {
    if ps == [] then d else StorePacket(Stores(d, ps[..|ps| - 1]), ps[|ps| - 1])
  }

  /** A WRITE at any 32-bit address puts its first block where that address is modulo 128: at
      the block READ CAPACITY names as the last one, it overwrites block 0. */
  lemma {:induction false} WriteModulo(d: Device, ps: seq<Received>)
    requires d.Valid() && Opcode(d.intake.cbw) == WRITE && !d.wr.beginning && Full(ps) && |ps| <= 64
    ensures
      var r, at := Stores(ExecuteCbw(d), ps), RealBlock(d.intake.cbw, 0) * BLOCK_SIZE;
      && |Payload(ps)| == 8 * |ps| && r.store.ram == Splice(d.store.ram, at, Payload(ps))
      && r == ExecuteCbw(d).(store := d.store.(ram := r.store.ram), wr := ExecuteCbw(d).wr.(count := |ps|))
    decreases |ps|
  {
    hide WriteRam, Splice, StorePacket, ExecuteCbw, Lba;
    var e, at := ExecuteCbw(d), RealBlock(d.intake.cbw, 0) * BLOCK_SIZE;
    WriteStarted(d);
    if ps == [] {
      NothingSpliced(d.store.ram, at);
    } else {
      var n, p := |ps| - 1, ps[|ps| - 1];
      WriteModulo(d, ps[..n]);
      PayloadGrowsBy(ps);
      StoredNext(Stores(e, ps[..n]), d.intake.cbw, p, n);
      SpliceSplice(d.store.ram, at, Payload(ps[..n]), p.data);
    }
  }

  /** No data for the first block of the WRITE reaches any other block than the one asked for. */
  ghost predicate OnlyThere(d: Device)
    requires d.Valid() && Opcode(d.intake.cbw) == WRITE && !d.wr.beginning
  {
    forall ps: seq<Received> :: Full(ps) && |ps| <= 64 ==>
      forall a: nat :: a < RAM_SIZE && a / BLOCK_SIZE != Lba(d.intake.cbw) ==>
        Stores(ExecuteCbw(d), ps).store.ram[a] == d.store.ram[a]
  }

  /** The data of a WRITE's first block stays in the block asked for if and only if that block
      is on the disk; otherwise some data spoils another. */
  lemma WriteAsAskedIff(d: Device)
    requires d.Valid() && Opcode(d.intake.cbw) == WRITE && !d.wr.beginning
    ensures OnlyThere(d) <==> Lba(d.intake.cbw) < BLOCKS
  {
    hide Stores, ExecuteCbw, Opcode, Lba;
    if Lba(d.intake.cbw) < BLOCKS {
      forall ps: seq<Received>, a: nat | Full(ps) && |ps| <= 64 && a < RAM_SIZE && a / BLOCK_SIZE != Lba(d.intake.cbw)
        ensures Stores(ExecuteCbw(d), ps).store.ram[a] == d.store.ram[a]
      {
        StaysThere(d, ps, a);
      }
    } else {
      var p, a := SpoilsOther(d);
      assert Stores(ExecuteCbw(d), [p]).store.ram[a] != d.store.ram[a];
    }
  }

  lemma StaysThere(d: Device, ps: seq<Received>, a: nat)
    requires d.Valid() && Opcode(d.intake.cbw) == WRITE && !d.wr.beginning && Lba(d.intake.cbw) < BLOCKS
    requires Full(ps) && |ps| <= 64 && a < RAM_SIZE && a / BLOCK_SIZE != Lba(d.intake.cbw)
    ensures Stores(ExecuteCbw(d), ps).store.ram[a] == d.store.ram[a]
  {
    RealOnDisk(d.intake.cbw);
    hide *;
    WriteModulo(d, ps);
    OtherBlock(d.store.ram, Lba(d.intake.cbw), Payload(ps), a);
  }

  lemma RealOnDisk(cbw: seq<byte>)
    requires |cbw| == CBW_SIZE && Lba(cbw) < BLOCKS
    ensures RealBlock(cbw, 0) == Lba(cbw)
  {
    hide Lba;
  }

  lemma OtherBlock(ram: seq<byte>, block: nat, data: seq<byte>, a: nat)
    requires |ram| == RAM_SIZE && block < BLOCKS && |data| <= BLOCK_SIZE && a < RAM_SIZE && a / BLOCK_SIZE != block
    ensures Splice(ram, block * BLOCK_SIZE, data)[a] == ram[a]
  {}

  lemma SpoilsOther(d: Device) returns (p: Received, a: nat)
    requires d.Valid() && Opcode(d.intake.cbw) == WRITE && !d.wr.beginning && Lba(d.intake.cbw) >= BLOCKS
    ensures Full([p]) && a < RAM_SIZE && a / BLOCK_SIZE != Lba(d.intake.cbw)
    ensures Stores(ExecuteCbw(d), [p]).store.ram[a] != d.store.ram[a]
  {
    hide Stores, ExecuteCbw, Payload, Opcode, Lba;
    a := RealBlock(d.intake.cbw, 0) * BLOCK_SIZE;
    p := Received(seq(8, _ => d.store.ram[a] ^ 1), 8);
    OnePayload(p);
    WriteModulo(d, [p]);
    OtherByte(d.store.ram[a]);
  }

  lemma OnePayload(p: Received)
    requires p.Valid() && p.len == 8
    ensures Full([p]) && Payload([p]) == p.data
  {
    assert [p][1..] == [] && p.data[..8] == p.data;
  }

  lemma OtherByte(b: byte)
    ensures b ^ 1 != b
  {}

  lemma StoredNext(d: Device, cbw: seq<byte>, p: Received, n: nat)
    requires d.Valid() && p.Valid() && |cbw| == CBW_SIZE && n < 64
    requires d.wr.count == n && d.wr.page == 0 && d.wr.write == 64 && d.logicalBlock == Big16(cbw[19], cbw[20])
    ensures
      var at := RealBlock(cbw, 0) * BLOCK_SIZE + 8 * n;
      && at + 8 <= RAM_SIZE
      && StorePacket(d, p) ==
         d.(store := d.store.(ram := Splice(d.store.ram, at, p.data)), wr := d.wr.(count := n + 1))
  {
    hide WriteRam, Splice, Big16, StorePacket, Lba;
    var at := RealBlock(cbw, 0) * BLOCK_SIZE + 8 * n;
    assert (d.logicalBlock * BLOCK_SIZE + n * 8) % 0x1_0000 == at && at + 8 <= RAM_SIZE by {
      LbaHalves(cbw);
      OnlySevenBits(Big16(cbw[17], cbw[18]), d.logicalBlock, 0, 8 * n);
    }
    hide RealBlock, Lba;
    StoredAt(d, p);
    WriteWrapped(d.store.ram, d.logicalBlock * BLOCK_SIZE + n * 8, at, p.data);
  }

  lemma StoredAt(d: Device, p: Received)
    requires d.Valid() && p.Valid() && d.wr.count < d.wr.write && d.wr.page == 0
    ensures
      StorePacket(d, p) ==
      d.(store := d.store.(ram := WriteRam(d.store.ram, d.logicalBlock * BLOCK_SIZE + d.wr.count * 8, p.data)),
         wr := d.wr.(count := d.wr.count + 1))
  {
    hide WriteRam;
  }

  lemma NothingSpliced(ram: seq<byte>, at: nat)
    requires at <= |ram|
    ensures Splice(ram, at, []) == ram
  {}

  lemma WriteStarted(d: Device)
    requires d.Valid() && Opcode(d.intake.cbw) == WRITE && !d.wr.beginning
    ensures
      var e := ExecuteCbw(d);
      && e.wr.count == 0 && e.wr.page == 0 && e.wr.write == 64 && e.store == d.store
      && e.logicalBlock == Big16(d.intake.cbw[19], d.intake.cbw[20])
  {}

  lemma {:induction false} PayloadGrowsBy(ps: seq<Received>)
    requires Full(ps) && ps != []
    ensures Payload(ps) == Payload(ps[..|ps| - 1]) + ps[|ps| - 1].data
    decreases |ps|
  {
    var n := |ps| - 1;
    if n == 0 {
      assert ps[0].Bytes() == ps[0].data;
    } else {
      PayloadGrowsBy(ps[1..]);
      assert ps[1..][..n - 1] == ps[..n][1..];
    }
  }
}
