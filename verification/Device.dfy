/** The firmware of src/main.c and src/commands.c on values: what one turn of the main loop
    does to the globals, the external RAM and the EEPROM. The class in Firmware.dfy changes
    its fields step by step and is proved to do exactly this. */
module Device {
  import opened Bytes
  import opened Bitmap

  const BLOCK_SIZE := 512
  const PAGE_SIZE := 128
  const RAM_SIZE := 0x1_0000

  const CBW_SIZE := 31
  const CBW_TAG_OFFSET := 4
  const CBW_CB_OFFSET := 15
  const CSW_LENGTH := 13
  const DATA_LENGTH := 36

  const CBW_SIGNATURE: seq<byte> := [0x55, 0x53, 0x42, 0x43]
  const CSW_SIGNATURE: seq<byte> := [0x55, 0x53, 0x42, 0x53]

  const INQUIRY: byte := 0x12
  const TEST_UNIT_READY: byte := 0x00
  const READ_CAPACITY: byte := 0x25
  const MODE_SENSE: byte := 0x1a
  const PREVENT_REMOVAL: byte := 0x1e
  const READ: byte := 0x28
  const WRITE: byte := 0x2a
  const START_STOP_UNIT: byte := 0x1b
  const READ_FORMAT_CAPACITIES: byte := 0x23

  /** A packet in the receive buffer: `len` bytes of it are the host's, the rest is stale. */
  datatype Received = Received(data: seq<byte>, len: nat) {
    predicate Valid() { |data| == 8 && len <= 8 }

    function Bytes(): seq<byte>
      requires Valid()
    {
      data[..len]
    }
  }

  // -------------------------------------------------------------------- state

  /** The RAM, the EEPROM behind it, the dirty map and the block being flushed. */
  datatype Store = Store(ram: seq<byte>, eeprom: seq<byte>, dirty: DirtyMap, writeBlock: int, page: nat) {
    predicate Valid() {
      |ram| == |eeprom| == RAM_SIZE && -1 <= writeBlock < BLOCKS && page < 4
    }
  }

  /** The command block being put together. */
  datatype Intake = Intake(progress: bool, finished: bool, cbw: seq<byte>, index: nat) {
    predicate Valid() { |cbw| == CBW_SIZE && index <= CBW_SIZE }
  }

  /** A WRITE in its data phase: `count` of the `write` packets of a block have come, of
      block `page` of `length`. */
  datatype Writing = Writing(active: bool, beginning: bool, write: nat, count: nat, page: nat, length: nat)

  /** A READ in its data phase, `length` of `total` blocks left. */
  datatype Reading = Reading(active: bool, count: nat, read: nat, length: nat, total: nat)

  /** The static buffers that packets are sent from. */
  datatype Buffer = DataBuffer | CswBuffer | NullBuffer

  datatype Queued = Queued(buffer: Buffer, length: nat)

  /** The packets waiting in the ring, `done` bytes of the first one sent, and the buffers
      they point into. */
  datatype Outgoing = Outgoing(queue: seq<Queued>, done: nat, data: seq<byte>, csw: seq<byte>) {
    predicate Valid() {
      && |data| == DATA_LENGTH && |csw| == CSW_LENGTH
      && (forall i :: 0 <= i < |queue| ==> queue[i].length <= |Content(queue[i].buffer)|)
      && (queue == [] ==> done == 0)
      && (queue != [] ==> done <= queue[0].length)
    }

    function Content(b: Buffer): seq<byte> {
      match b
      case DataBuffer => data
      case CswBuffer => csw
      case NullBuffer => Zeros(8)
    }

    /** The messages as their buffers are now. */
    function Messages(): (m: seq<seq<byte>>)
      requires Valid()
      ensures |m| == |queue|
      ensures forall i :: 0 <= i < |queue| ==> m[i] == Content(queue[i].buffer)[..queue[i].length]
    {
      Resolve(queue)
    }

    function Resolve(q: seq<Queued>): (m: seq<seq<byte>>)
      requires forall i :: 0 <= i < |q| ==> q[i].length <= |Content(q[i].buffer)|
      ensures |m| == |q|
      ensures forall i :: 0 <= i < |q| ==> m[i] == Content(q[i].buffer)[..q[i].length]
    {
      if q == [] then [] else [Content(q[0].buffer)[..q[0].length]] + Resolve(q[1..])
    }
  }

  datatype Device = Device(
    store: Store, intake: Intake, wr: Writing, rd: Reading, out: Outgoing,
    tag: seq<byte>, logicalBlock: nat)
  {
    predicate Valid() {
      && store.Valid() && intake.Valid() && out.Valid()
      && |tag| == 4 && logicalBlock < 0x1_0000
      && wr.count < 0x1_0000 && wr.page < 0x100 && wr.length < 0x100 && wr.write < 0x1_0000
      && rd.count < 0x1_0000 && rd.length < 0x1_0000 && rd.total < 0x1_0000 && rd.read < 0x1_0000
    }
  }

  function Zeros(n: nat): (s: seq<byte>)
    ensures |s| == n
  {
    seq(n, _ => 0)
  }

  // ---------------------------------------------------------------- the status

  /** The command status wrapper: signature, tag, no residue, passed. */
  function Csw(tag: seq<byte>): (s: seq<byte>)
    requires |tag| == 4
    ensures |s| == CSW_LENGTH
  {
    CSW_SIGNATURE + tag + Zeros(4) + [0]
  }

  /** `create_basic_csw` and the `usb_send_data` after it. */
  function SendStatus(out: Outgoing, tag: seq<byte>): (r: Outgoing)
    requires out.Valid() && |tag| == 4
    ensures r.Valid()
  {
    out.(csw := Csw(tag), queue := out.queue + [Queued(CswBuffer, CSW_LENGTH)])
  }

  function SendData(out: Outgoing, buffer: Buffer, length: nat): (r: Outgoing)
    requires out.Valid() && length <= |out.Content(buffer)|
    ensures r.Valid()
  {
    out.(queue := out.queue + [Queued(buffer, length)])
  }

  // ------------------------------------------------------- usbFunctionWriteOut

  function Wrap16(n: nat): (r: nat)
    ensures r < 0x1_0000
    ensures n < 0x1_0000 ==> r == n
  {
    n % 0x1_0000
  }

  /** `ram_write_byte` for the first `n` bytes of `data` from `at` on, addresses modulo 64 KiB. */
  function WriteRam(ram: seq<byte>, at: nat, data: seq<byte>): (r: seq<byte>)
    requires |ram| == RAM_SIZE
    ensures |r| == RAM_SIZE
  {
    if data == [] then ram
    else
      var n := |data| - 1;
      WriteRam(ram, at, data[..n])[Wrap16(at + n) := data[n]]
  }

  /** `ram_read_byte` for `n` addresses from `at` on. */
  function ReadRam(ram: seq<byte>, at: nat, n: nat): (s: seq<byte>)
    requires |ram| == RAM_SIZE
    ensures |s| == n
    ensures forall i :: 0 <= i < n ==> s[i] == ram[Wrap16(at + i)]
  {
    if n == 0 then [] else ReadRam(ram, at, n - 1) + [ram[Wrap16(at + n - 1)]]
  }

  /** The eight bytes of a data packet go to RAM. */
  function StorePacket(d: Device, p: Received): (r: Device)
    requires d.Valid() && p.Valid()
    ensures r.Valid()
    ensures r.store.writeBlock == d.store.writeBlock && r.store.page == d.store.page
  {
    if d.wr.count < d.wr.write then
      var at := d.logicalBlock * BLOCK_SIZE + d.wr.count * 8 + d.wr.page * BLOCK_SIZE;
      d.(store := d.store.(ram := WriteRam(d.store.ram, at, p.data)), wr := d.wr.(count := d.wr.count + 1))
    else d
  }

  /** A block is complete: it is dirty from now on, and it may be the last. A block number
      past the map is not modelled. */
  function BlockDone(d: Device): (r: Device)
    requires d.Valid()
    ensures r.Valid()
    ensures r.store.writeBlock == d.store.writeBlock && r.store.page == d.store.page
  {
    var block := (d.logicalBlock + d.wr.page) % 0x100;
    var dirty := if block < BLOCKS then Mark(d.store.dirty, block) else d.store.dirty;
    var page := (d.wr.page + 1) % 0x100;
    var d := d.(store := d.store.(dirty := dirty), wr := d.wr.(page := page, count := 0));
    if page == d.wr.length then
      d.(wr := d.wr.(active := false, beginning := false), out := SendStatus(d.out, d.tag))
    else d
  }

  /** A data packet of a WRITE. */
  function TakeData(d: Device, p: Received): (r: Device)
    requires d.Valid() && p.Valid() && d.wr.active
    ensures r.Valid()
    ensures r.store.writeBlock == d.store.writeBlock && r.store.page == d.store.page
  {
    var d := StorePacket(d, p);
    if d.wr.count == d.wr.write then BlockDone(d) else d
  }

  /** A packet outside a data phase belongs to a command block. */
  function TakeCommand(i: Intake, p: Received): (r: Intake)
    requires i.Valid() && p.Valid()
    ensures r.Valid()
  {
    if !i.progress && !i.finished then
      if p.data[..4] == CBW_SIGNATURE then
        i.(index := p.len, cbw := Splice(i.cbw, 0, p.Bytes()), progress := true)
      else i
    else
      var end := i.index + p.len;
      var temp := Min(end, CBW_SIZE);
      var i := if end >= CBW_SIZE then i.(progress := false, finished := true) else i;
      i.(cbw := Splice(i.cbw, i.index, p.data[..temp - i.index]), index := temp)
  }

  function WriteOut(d: Device, p: Received): (r: Device)
    requires d.Valid() && p.Valid()
    ensures r.Valid()
    ensures r.store.writeBlock == d.store.writeBlock && r.store.page == d.store.page
  {
    if d.wr.active then TakeData(d, p) else d.(intake := TakeCommand(d.intake, p))
  }

  // --------------------------------------------------- usb_send_next_data, execute_read

  function SendNextData(out: Outgoing): (r: (Outgoing, Option<seq<byte>>))
    requires out.Valid()
    ensures r.0.Valid()
  {
    if out.queue == [] then (out, None)
    else
      var p := out.queue[0];
      var message := out.Content(p.buffer)[..p.length];
      if p.length - out.done > 8 then
        (out.(done := out.done + 8), Some(message[out.done..out.done + 8]))
      else
        (out.(queue := out.queue[1..], done := 0), Some(message[out.done..]))
  }

  function ExecuteRead(d: Device): (r: (Device, Option<seq<byte>>))
    requires d.Valid()
    ensures r.0.Valid()
    ensures r.0.store == d.store && r.0.intake == d.intake
  {
    if !d.rd.active then (d, None)
    else
      var blocks := (d.rd.total - d.rd.length) % 0x1_0000;
      var at := d.logicalBlock * BLOCK_SIZE + d.rd.count * 8 + blocks * BLOCK_SIZE;
      var sent := if d.rd.count <= d.rd.read then Some(ReadRam(d.store.ram, at, 8)) else None;
      var count := if d.rd.count <= d.rd.read then Wrap16(d.rd.count + 1) else d.rd.count;
      if count != d.rd.read then (d.(rd := d.rd.(count := count)), sent)
      else
        var length := (d.rd.length - 1) % 0x1_0000;
        if length == 0 then
          (d.(rd := d.rd.(count := count, length := 0, active := false), out := SendStatus(d.out, d.tag)), sent)
        else
          (d.(rd := d.rd.(count := 0, length := length)), sent)
  }

  /** What a turn with a free IN buffer hands to `usbSetInterrupt`, in order: a second packet
      would overwrite the first. */
  function SendTurn(d: Device): (r: (Device, seq<seq<byte>>))
    requires d.Valid()
    ensures r.0.Valid()
    ensures r.0.store == d.store && r.0.intake == d.intake
  {
    var (out, first) := SendNextData(d.out);
    var (d, second) := ExecuteRead(d.(out := out));
    (d, Loaded(first) + Loaded(second))
  }

  function Loaded(p: Option<seq<byte>>): seq<seq<byte>> {
    match p
    case None => []
    case Some(s) => [s]
  }

  // --------------------------------------------------------------- execute_cbw

  /** The reply of a command that is neither READ nor WRITE. */
  datatype Reply = NoReply | StatusOnly | DataThenStatus(data: seq<byte>, buffer: Buffer, length: nat)

  /** `data` is what the static reply buffer holds from earlier commands: MODE SENSE sends
      more of it than it fills. */
  function ReplyTo(op: byte, data: seq<byte>): (r: Reply)
    requires |data| == DATA_LENGTH
    ensures r.DataThenStatus? ==>
              |r.data| == DATA_LENGTH && r.length <= (if r.buffer == NullBuffer then 8 else DATA_LENGTH)
              && r.buffer != CswBuffer
  {
    if op == INQUIRY then DataThenStatus(InquiryData(), DataBuffer, 36)
    else if op == TEST_UNIT_READY || op == PREVENT_REMOVAL || op == START_STOP_UNIT then StatusOnly
    else if op == READ_CAPACITY then
      DataThenStatus([0, 0, 0, 128, 0, 0, 2, 0] + data[8..], DataBuffer, 8)
    else if op == MODE_SENSE then
      DataThenStatus(MODE_PARAMETERS + data[14..], DataBuffer, 0x23)
    else if op == READ_FORMAT_CAPACITIES then DataThenStatus(data, NullBuffer, 4)
    else NoReply
  }

  const MODE_PARAMETERS: seq<byte> := [0x35, 0, 0, 0, 0x05, 0x1e, 0xf0, 0, 0xff, 0x20, 0, 0x1c, 0xfc, 0]

  function Spaces(n: nat): (s: seq<byte>)
    ensures |s| == n
  {
    seq(n, _ => 0x20)
  }

  /** The 36 bytes of the INQUIRY answer: "HeKa    DIC drive       0.01". */
  function InquiryData(): (s: seq<byte>)
    ensures |s| == DATA_LENGTH
  {
    [0x00, 0x80, 0x00, 0x02, 0x1f, 0, 0, 0]
    + [0x48, 0x65, 0x4b, 0x61] + Spaces(4)
    + [0x44, 0x49, 0x43, 0x20, 0x64, 0x72, 0x69, 0x76] + [0x65] + Spaces(7)
    + [0x30, 0x2e, 0x30, 0x31]
  }

  function Big16(high: byte, low: byte): (n: nat)
    ensures n < 0x1_0000
  {
    (high as int) * 0x100 + (low as int)
  }

  function ExecuteCbw(d: Device): (r: Device)
    requires d.Valid()
    ensures r.Valid()
    ensures r.store == d.store
  {
    var cbw := d.intake.cbw;
    var cb := cbw[CBW_CB_OFFSET..];
    var d := d.(tag := cbw[CBW_TAG_OFFSET..CBW_TAG_OFFSET + 4]);
    if cb[0] == READ then
      var length := Big16(cb[7], cb[8]);
      d.(logicalBlock := Big16(cb[4], cb[5]),
         rd := Reading(true, 0, BLOCK_SIZE / 8, length, length),
         out := d.out.(data := Zeros(8) + d.out.data[8..]))
    else if cb[0] == WRITE then
      d.(logicalBlock := Big16(cb[4], cb[5]),
         wr := Writing(true, true, BLOCK_SIZE / 8, 0, if d.wr.beginning then d.wr.page else 0,
                       Big16(cb[7], cb[8]) % 0x100))
    else
      match ReplyTo(cb[0], d.out.data)
      case NoReply => d
      case StatusOnly => d.(out := SendStatus(d.out, d.tag))
      case DataThenStatus(data, buffer, length) =>
        d.(out := SendStatus(SendData(d.out.(data := data), buffer, length), d.tag))
  }

  function CommandTurn(d: Device): (r: Device)
    requires d.Valid()
    ensures r.Valid()
    ensures r.store == d.store
  {
    if d.intake.finished then ExecuteCbw(d.(intake := d.intake.(finished := false))) else d
  }

  // ------------------------------------------------------------------ the flush

  /** A dirty block is picked, or one page of the picked block is copied; `busOk` says
      whether the EEPROM took it. */
  function Flush(s: Store, busOk: bool): (r: Store)
    requires s.Valid()
    ensures r.Valid()
  {
    if s.writeBlock < 0 then
      var b := FirstDirty(s.dirty, 0);
      if b < 0 then s else s.(writeBlock := b, dirty := Clear(s.dirty, b))
    else
      var at := BLOCK_SIZE * s.writeBlock + s.page * PAGE_SIZE;
      var eeprom := if busOk then Splice(s.eeprom, at, s.ram[at..at + PAGE_SIZE]) else s.eeprom;
      if s.page + 1 >= 4 then s.(eeprom := eeprom, page := 0, writeBlock := -1)
      else s.(eeprom := eeprom, page := s.page + 1)
  }

  // ------------------------------------------------------------ the main loop

  /** What happens around one turn: the packet `usbPoll` delivers, if any, whether the IN
      buffer is free, and whether the EEPROM answers. */
  datatype Input = Input(packet: Option<Received>, ready: bool, busOk: bool) {
    predicate Valid() { packet.Some? ==> packet.value.Valid() }
  }

  function Poll(d: Device, packet: Option<Received>): (r: Device)
    requires d.Valid() && (packet.Some? ==> packet.value.Valid())
    ensures r.Valid()
    ensures r.store.writeBlock == d.store.writeBlock && r.store.page == d.store.page
  {
    match packet
    case None => d
    case Some(p) => WriteOut(d, p)
  }

  function Turn(d: Device, input: Input): (r: (Device, seq<seq<byte>>))
    requires d.Valid() && input.Valid()
    ensures r.0.Valid()
  {
    var d := Poll(d, input.packet);
    var (d, sent) := if input.ready then SendTurn(d) else (d, []);
    var d := CommandTurn(d);
    (d.(store := Flush(d.store, input.busOk)), sent)
  }
}
