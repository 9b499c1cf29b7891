/** The USB driver as two interleaved programs: the interrupt routine of
    src/usbdrv/asmcommon.inc, one atomic step per packet on the bus, and the main program of
    src/usbdrv/usbdrv.c, one step per access to a variable they share. */
module UsbMachine {
  import opened Bytes
  import Crc16

  const USB_BUFSIZE := 11

  const PID_SETUP: byte := 0x2d
  const PID_OUT: byte := 0xe1
  const PID_IN: byte := 0x69
  const DATA0: byte := 0xc3
  const DATA1: byte := 0x4b

  /** Handshake tokens in a length variable mean that there is nothing to send. */
  const ACK := 0xd2
  const NAK := 0x5a

  /** Bit 4, which no length of a data packet has. */
  predicate IsHandshake(len: nat) {
    len / 16 % 2 == 1
  }

  function Toggle(pid: byte): byte {
    pid ^ (DATA0 ^ DATA1)
  }

  /** A data packet as it goes over the bus. */
  function Frame(pid: byte, data: seq<byte>): (f: seq<byte>)
    ensures |f| == |data| + 3
  {
    [pid] + data + Crc16.Trailer(data)
  }

  // ------------------------------------------------------------ shared variables

  /** `usbRxBuf`, `usbInputBufOffset`, `usbRxLen`, `usbRxToken`, `usbCurrentTok`. */
  datatype Rx = Rx(buf: seq<byte>, offset: nat, len: nat, token: byte, currentTok: byte) {
    predicate Valid() {
      |buf| == 2 * USB_BUFSIZE && offset in {0, USB_BUFSIZE} && (len == 0 || 4 <= len <= USB_BUFSIZE)
    }

    /** The first data byte of the half that is not selected for reception. */
    function Start(): nat
      requires Valid()
    {
      USB_BUFSIZE + 1 - offset
    }

    function Stored(): seq<byte>
      requires Valid() && len > 0
    {
      buf[Start()..Start() + len - 3]
    }
  }

  /** A transmit buffer and its length, which counts the sync byte too. */
  datatype Tx = Tx(buf: seq<byte>, len: nat) {
    predicate Valid() { |buf| == USB_BUFSIZE && (IsHandshake(len) || 4 <= len <= 12) }
  }

  // ------------------------------------------------------------------- histories

  datatype Packet = Packet(token: byte, data: seq<byte>)

  /** A frame sent on endpoint 0: packet `index` of reply number `reply`, sent when `setups`
      SETUP packets of eight bytes had been acknowledged. */
  datatype Sent0 = Sent0(frame: seq<byte>, reply: int, index: nat, setups: nat)

  /** A frame sent on endpoint 1, made by call number `load` of `usbSetInterrupt`. */
  datatype Sent1 = Sent1(frame: seq<byte>, load: int)

  /** What happened so far: packets acknowledged and packets processed; the replies to
      SETUPs, `count` packets of the last one sent; what `usbSetInterrupt` was given; the
      PIDs sent on endpoint 1 since its toggling was reset, and whether a packet was
      waiting then; and how many calls found a packet waiting. */
  datatype Log = Log(acked: seq<Packet>, processed: seq<Packet>,
                     replies: seq<seq<byte>>, count: nat, sent0: seq<Sent0>,
                     loaded: seq<seq<byte>>, sent1: seq<Sent1>, epoch: seq<byte>, carried: bool,
                     late: nat)

  function Setups(ps: seq<Packet>): nat {
    if ps == [] then 0
    else Setups(ps[..|ps| - 1]) + if IsSetup(ps[|ps| - 1]) then 1 else 0
  }

  predicate IsSetup(p: Packet) {
    p.token == PID_SETUP && |p.data| == 8
  }

  // ----------------------------------------------------------------- the program

  /** Where the main program stands, with its local variables. */
  datatype Pc =
    | Poll
    | Enter(n: nat)
    | SetupToken(ptr: nat, n: nat)
    | SetupNak(ptr: nat, n: nat)
    | Reading(ptr: nat, n: nat, got: seq<byte>)
    | SetupReply
    | Release
    | TxTest
    | TxToggle(chunk: seq<byte>)
    | TxCopy(chunk: seq<byte>, i: nat)
    | TxCrc(chunk: seq<byte>)
    | TxReady(chunk: seq<byte>)
    | App
    | SiTest(src: seq<byte>, size: nat)
    | SiToggle(src: seq<byte>, size: nat)
    | SiAbort(src: seq<byte>, size: nat)
    | SiCopy(src: seq<byte>, size: nat, i: nat)
    | SiCrc(src: seq<byte>, size: nat)
    | SiReady(src: seq<byte>, size: nat)

  datatype State = State(rx: Rx, tx0: Tx, tx1: Tx, msg: Option<seq<byte>>, pc: Pc, log: Log) {
    predicate Valid() { rx.Valid() && tx0.Valid() && tx1.Valid() && PcValid() }

    predicate PcValid() {
      match pc
      case Enter(n) => n <= 8
      case SetupToken(ptr, n) => n <= 8 && ptr <= 12
      case SetupNak(ptr, n) => n <= 8 && ptr <= 12
      case Reading(ptr, n, got) => n <= 8 && ptr <= 12 && |got| <= n
      case TxToggle(chunk) => |chunk| <= 8
      case TxCopy(chunk, i) => |chunk| <= 8 && i <= |chunk|
      case TxCrc(chunk) => |chunk| <= 8
      case TxReady(chunk) => |chunk| <= 8
      case SiTest(src, size) => ValidCall(src, size)
      case SiToggle(src, size) => ValidCall(src, size)
      case SiAbort(src, size) => ValidCall(src, size)
      case SiCopy(src, size, i) => ValidCall(src, size) && (i < size || i == 0)
      case SiCrc(src, size) => ValidCall(src, size)
      case SiReady(src, size) => ValidCall(src, size)
      case _ => true
    }
  }

  /** `usbSetInterrupt(data, len)`: at most a full packet, and a first byte to copy even when
      `len` is zero. */
  predicate ValidCall(src: seq<byte>, size: nat) {
    size <= 8 && size <= |src| && src != []
  }

  // -------------------------------------------------------- the interrupt routine

  /** A packet on the bus: its bytes, whether it was longer than the buffer, and whether the
      address of a token is this device's. */
  datatype Arrival = Arrival(raw: seq<byte>, overflow: bool, mine: bool) {
    predicate Valid() { 1 <= |raw| <= USB_BUFSIZE }
  }

  datatype Answer = Silence | Handshake(token: nat) | Data0(frame: seq<byte>) | Data1(frame: seq<byte>)

  /** The endpoint number of a token: three bits of its third byte and one of its second. */
  function Endpoint(second: byte, third: byte): byte {
    ((third << 1) | (second >> 7)) & 0xf
  }

  datatype Kind = Other(current: byte) | Data | In(endpoint: byte)

  /** What `se0` makes of the packet at the start of the selected half. */
  function Classify(rx: Rx, a: Arrival): Kind
    requires rx.Valid() && a.Valid()
  {
    var token := a.raw[0];
    if a.overflow then Other(0)
    else if token == DATA0 || token == DATA1 then Data
    else if !a.mine then Other(0)
    else
      var endpoint := Endpoint(rx.buf[rx.offset + 1], rx.buf[rx.offset + 2]);
      if token == PID_IN then In(endpoint)
      else if token == PID_SETUP || token == PID_OUT then Other(if endpoint == 0 then token else endpoint)
      else Other(0)
  }

  /** The receiver stores every packet, whatever it is, in the selected half. */
  function Receiver(s: State, raw: seq<byte>): (r: State)
    requires s.Valid() && |raw| <= USB_BUFSIZE
    ensures r.Valid() && r == s.(rx := r.rx)
  {
    s.(rx := s.rx.(buf := Splice(s.rx.buf, s.rx.offset, raw)))
  }

  function Interrupt(s: State, a: Arrival): (r: (State, Answer))
    requires s.Valid() && a.Valid()
    ensures r.0.Valid() && r.0.pc == s.pc && r.0.msg == s.msg
  {
    var s := Receiver(s, a.raw);
    match Classify(s.rx, a)
    case Other(current) => SetCurrent(s, current)
    case Data => HandleData(s, |a.raw|)
    case In(endpoint) => HandleIn(s, endpoint)
  }

  function SetCurrent(s: State, token: byte): (State, Answer) {
    (s.(rx := s.rx.(currentTok := token)), Silence)
  }

  /** `handleData`, for a packet of `cnt` bytes just received. */
  function HandleData(s: State, cnt: nat): (r: (State, Answer))
    requires s.Valid() && 1 <= cnt <= USB_BUFSIZE
    ensures r.0.Valid() && r.0.pc == s.pc && r.0.msg == s.msg
  {
    if s.rx.currentTok == 0 then (s, Silence)
    else if s.rx.len != 0 then (s, Handshake(NAK))
    else if cnt < 4 then (s, Handshake(ACK))
    else
      var data := s.rx.buf[s.rx.offset + 1..s.rx.offset + cnt - 2];
      (s.(rx := s.rx.(len := cnt, token := s.rx.currentTok, offset := USB_BUFSIZE - s.rx.offset),
          log := s.log.(acked := s.log.acked + [Packet(s.rx.currentTok, data)])),
       Handshake(ACK))
  }

  /** `handleIn` and `handleIn1`. */
  function HandleIn(s: State, endpoint: byte): (r: (State, Answer))
    requires s.Valid()
    ensures r.0.Valid() && r.0.pc == s.pc && r.0.msg == s.msg && r.0.rx == s.rx
  {
    if s.rx.len >= 1 then (s, Handshake(NAK))
    else if endpoint == 0 then
      if IsHandshake(s.tx0.len) then (s, Handshake(s.tx0.len))
      else
        var frame := s.tx0.buf[..s.tx0.len - 1];
        (s.(tx0 := s.tx0.(len := NAK),
            log := s.log.(count := s.log.count + 1,
                          sent0 := s.log.sent0 +
                                   [Sent0(frame, |s.log.replies| - 1, s.log.count, Setups(s.log.acked))])),
         Data0(frame))
    else
      if IsHandshake(s.tx1.len) then (s, Handshake(s.tx1.len))
      else
        var frame := s.tx1.buf[..s.tx1.len - 1];
        (s.(tx1 := s.tx1.(len := NAK),
            log := s.log.(sent1 := s.log.sent1 + [Sent1(frame, |s.log.loaded| - 1)],
                          epoch := s.log.epoch + [frame[0]])),
         Data1(frame))
  }

  // ------------------------------------------------------------- the main program

  /** What the main program is told from outside: the reply of `usbFunctionSetup` or the
      driver to a SETUP (already cut to wLength), whether that request resets the toggling
      of endpoint 1, and the next call of `usbSetInterrupt`, if any. */
  datatype Choice = Choice(reply: seq<byte>, reset: bool, call: Option<(seq<byte>, nat)>) {
    predicate Valid() {
      |reply| <= 254 && (call.Some? ==> ValidCall(call.value.0, call.value.1))
    }
  }

  /** One step of the main program. With `guarded`, `usbSetInterrupt` is called only after
      `usbInterruptIsReady` said yes. */
  function Main(s: State, c: Choice, guarded: bool): (r: State)
    requires s.Valid() && c.Valid()
    ensures r.Valid()
  {
    if s.pc.App? then
      if c.call == None || (guarded && !IsHandshake(s.tx1.len)) then s.(pc := Poll)
      else s.(pc := SiTest(c.call.value.0, c.call.value.1))
    else if InReceive(s.pc) then Receive(s, c)
    else if InBuild(s.pc) then Build(s)
    else Send(s)
  }

  predicate InReceive(pc: Pc) {
    pc.Poll? || pc.Enter? || pc.SetupToken? || pc.SetupNak? || pc.Reading? || pc.SetupReply? || pc.Release?
  }

  predicate InBuild(pc: Pc) {
    pc.TxTest? || pc.TxToggle? || pc.TxCopy? || pc.TxCrc? || pc.TxReady?
  }

  predicate InSend(pc: Pc) {
    pc.SiTest? || pc.SiToggle? || pc.SiAbort? || pc.SiCopy? || pc.SiCrc? || pc.SiReady?
  }

  /** The first half of `usbPoll`, with `usbProcessRx`. */
  function Receive(s: State, c: Choice): (r: State)
    requires s.Valid() && c.Valid() && InReceive(s.pc)
    ensures r.Valid()
  {
    match s.pc
    case Poll => s.(pc := if s.rx.len >= 3 then Enter(s.rx.len - 3) else TxTest)
    case Enter(n) =>
      var ptr := s.rx.Start();
      s.(pc := if s.rx.token == PID_SETUP && n == 8 then SetupToken(ptr, n) else Reading(ptr, n, []))
    case SetupToken(ptr, n) => s.(tx0 := s.tx0.(buf := s.tx0.buf[0 := DATA0]), pc := SetupNak(ptr, n))
    case SetupNak(ptr, n) => s.(tx0 := s.tx0.(len := NAK), pc := Reading(ptr, n, []))
    case Reading(ptr, n, got) =>
      if |got| < n then s.(pc := Reading(ptr, n, got + [s.rx.buf[ptr + |got|]]))
      else
        s.(pc := if s.rx.token == PID_SETUP && n == 8 then SetupReply else Release,
           log := s.log.(processed := s.log.processed + [Packet(s.rx.token, got)]))
    case SetupReply =>
      var s := if c.reset then ResetToggling(s) else s;
      s.(msg := Some(c.reply), pc := Release, log := s.log.(replies := s.log.replies + [c.reply], count := 0))
    case Release => s.(rx := s.rx.(len := 0), pc := TxTest)
  }

  function ResetToggling(s: State): (r: State)
    requires s.Valid()
    ensures r.Valid() && r == s.(tx1 := r.tx1, log := s.log.(epoch := r.log.epoch, carried := r.log.carried))
  {
    s.(tx1 := s.tx1.(buf := s.tx1.buf[0 := DATA1]),
       log := s.log.(epoch := [], carried := !IsHandshake(s.tx1.len)))
  }

  /** The second half of `usbPoll`, with `usbBuildTxBlock` and `usbDeviceRead`. */
  function Build(s: State): (r: State)
    requires s.Valid() && InBuild(s.pc)
    ensures r.Valid()
  {
    match s.pc
    case TxTest =>
      if IsHandshake(s.tx0.len) && s.msg.Some? then
        var want := Min(|s.msg.value|, 8);
        s.(msg := Some(s.msg.value[want..]), pc := TxToggle(s.msg.value[..want]))
      else s.(pc := App)
    case TxToggle(chunk) =>
      s.(tx0 := s.tx0.(buf := s.tx0.buf[0 := Toggle(s.tx0.buf[0])]), pc := TxCopy(chunk, 0))
    case TxCopy(chunk, i) =>
      if i < |chunk| then s.(tx0 := s.tx0.(buf := s.tx0.buf[1 + i := chunk[i]]), pc := TxCopy(chunk, i + 1))
      else s.(pc := TxCrc(chunk))
    case TxCrc(chunk) =>
      var n := |chunk|;
      s.(tx0 := s.tx0.(buf := Splice(s.tx0.buf, 1 + n, Crc16.Trailer(s.tx0.buf[1..1 + n]))), pc := TxReady(chunk))
    case TxReady(chunk) =>
      s.(tx0 := s.tx0.(len := |chunk| + 4), msg := if |chunk| + 4 < 12 then None else s.msg, pc := App)
  }

  /** `usbGenericSetInterrupt`. */
  function Send(s: State): (r: State)
    requires s.Valid() && InSend(s.pc)
    ensures r.Valid()
  {
    match s.pc
    case SiTest(src, size) =>
      if IsHandshake(s.tx1.len) then s.(pc := SiToggle(src, size))
      else s.(pc := SiAbort(src, size), log := s.log.(late := s.log.late + 1))
    case SiToggle(src, size) =>
      s.(tx1 := s.tx1.(buf := s.tx1.buf[0 := Toggle(s.tx1.buf[0])]), pc := SiCopy(src, size, 0))
    case SiAbort(src, size) => s.(tx1 := s.tx1.(len := NAK), pc := SiCopy(src, size, 0))
    case SiCopy(src, size, i) =>
      s.(tx1 := s.tx1.(buf := s.tx1.buf[1 + i := src[i]]),
         pc := if i + 1 < size then SiCopy(src, size, i + 1) else SiCrc(src, size))
    case SiCrc(src, size) =>
      s.(tx1 := s.tx1.(buf := Splice(s.tx1.buf, 1 + size, Crc16.Trailer(s.tx1.buf[1..1 + size]))),
         pc := SiReady(src, size))
    case SiReady(src, size) =>
      s.(tx1 := s.tx1.(len := size + 4), pc := App, log := s.log.(loaded := s.log.loaded + [src[..size]]))
  }

  /** The two checksum bytes complete a frame in the buffer. */
  lemma CrcCompletes(buf: seq<byte>, size: nat)
    requires |buf| == USB_BUFSIZE && size <= 8
    ensures
      var r := Splice(buf, 1 + size, Crc16.Trailer(buf[1..1 + size]));
      r[0] == buf[0] && r[..size + 3] == Frame(buf[0], buf[1..1 + size])
  {
    var r := Splice(buf, 1 + size, Crc16.Trailer(buf[1..1 + size]));
    assert r[..size + 3] == [r[0]] + r[1..1 + size] + r[1 + size..size + 3];
  }

  // ------------------------------------------------------------------------- runs

  datatype Event = Bus(arrival: Arrival) | Step(choice: Choice) {
    predicate Valid() {
      match this
      case Bus(a) => a.Valid()
      case Step(c) => c.Valid()
    }
  }

  function Next(s: State, e: Event, guarded: bool): (r: State)
    requires s.Valid() && e.Valid()
    ensures r.Valid()
  {
    match e
    case Bus(a) => Interrupt(s, a).0
    case Step(c) => Main(s, c, guarded)
  }

  function Run(s: State, es: seq<Event>, guarded: bool): (r: State)
    requires s.Valid() && forall e :: e in es ==> e.Valid()
    ensures r.Valid()
    decreases |es|
  {
    if es == [] then s else Next(Run(s, es[..|es| - 1], guarded), es[|es| - 1], guarded)
  }

  /** After `usbInit`; the buffers hold anything else. */
  predicate Initial(s: State) {
    && s.Valid() && s.rx.len == 0 && s.tx0.len == NAK && s.tx1.len == NAK && s.tx1.buf[0] == DATA1
    && s.msg == None && s.pc == Poll
    && s.log == Log([], [], [], 0, [], [], [], [], false, 0)
  }
}
