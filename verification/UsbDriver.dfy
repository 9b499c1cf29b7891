/** The driver as it is written: its variables changed in place. The interrupt routine is
    proved to be a step of the machine of UsbMachine, and `usbPoll` and `usbSetInterrupt`
    to do what the machine's main program does when no interrupt comes between. */
module UsbDriver {
  import opened Bytes
  import opened UsbMachine
  import opened UsbAlone
  import Crc16

  const USB_NO_MSG := 255

  /** A reply is never longer than the host asked for; `usbMsgLen_t` has eight bits,
      `wLength` sixteen. */
  method LimitReply(replyLen: nat, low: byte, high: byte) returns (r: nat)
    requires replyLen <= 254
    ensures r == Min(replyLen, (high as int) * 0x100 + (low as int))
  {
    r := replyLen;
    if high == 0 && replyLen > low as int {
      r := low as int;
    }
  }

  class Driver {
    const usbRxBuf: array<byte>
    var usbInputBufOffset: nat
    var usbRxLen: nat
    var usbRxToken: byte
    var usbCurrentTok: byte
    const usbTxBuf: array<byte>
    var usbTxLen: nat
    const usbTxBuf1: array<byte>
    var usbTxLen1: nat
    /** The bytes from `usbMsgPtr` on. */
    var usbMsg: seq<byte>
    var usbMsgLen: nat

    ghost predicate Valid()
      reads this
    {
      && usbRxBuf.Length == 2 * USB_BUFSIZE && usbTxBuf.Length == usbTxBuf1.Length == USB_BUFSIZE
      && usbRxBuf != usbTxBuf && usbRxBuf != usbTxBuf1 && usbTxBuf != usbTxBuf1
      && usbInputBufOffset in {0, USB_BUFSIZE} && (usbRxLen == 0 || 4 <= usbRxLen <= USB_BUFSIZE)
      && (IsHandshake(usbTxLen) || 4 <= usbTxLen <= 12) && (IsHandshake(usbTxLen1) || 4 <= usbTxLen1 <= 12)
      && usbMsgLen <= USB_NO_MSG && (usbMsgLen != USB_NO_MSG ==> usbMsgLen <= |usbMsg|)
    }

    ghost function Message(): Option<seq<byte>>
      requires Valid()
      reads this
    {
      if usbMsgLen == USB_NO_MSG then None else Some(usbMsg[..usbMsgLen])
    }

    /** The variables as a state of the machine, with the main program at `pc`. */
    ghost function View(pc: Pc, log: Log): State
      requires Valid()
      reads this, usbRxBuf, usbTxBuf, usbTxBuf1
    {
      State(Rx(usbRxBuf[..], usbInputBufOffset, usbRxLen, usbRxToken, usbCurrentTok),
            Tx(usbTxBuf[..], usbTxLen), Tx(usbTxBuf1[..], usbTxLen1), Message(), pc, log)
    }

    /** After `usbInit`. */
    constructor ()
      ensures Valid() && Initial(View(Pc.Poll, Log([], [], [], 0, [], [], [], [], false, 0)))
    {
      usbRxBuf := new byte[2 * USB_BUFSIZE](_ => 0);
      usbTxBuf := new byte[USB_BUFSIZE](_ => 0);
      usbTxBuf1 := new byte[USB_BUFSIZE](i => if i == 0 then DATA1 else 0);
      usbInputBufOffset, usbRxLen, usbRxToken, usbCurrentTok := 0, 0, 0, 0;
      usbTxLen, usbTxLen1 := NAK, NAK;
      usbMsg, usbMsgLen := [], USB_NO_MSG;
    }

    // ------------------------------------------------------- the interrupt routine

    /** The receiver's loop. */
    method Receive(raw: seq<byte>)
      requires Valid() && 1 <= |raw| <= USB_BUFSIZE
      modifies usbRxBuf
      ensures Valid() && usbRxBuf[..] == Splice(old(usbRxBuf[..]), usbInputBufOffset, raw)
    {
      hide IsHandshake, Splice;
      var at := usbInputBufOffset;
      ghost var before := usbRxBuf[..];
      SpliceNext(before, at, raw, 0);
      for i := 0 to |raw|
        invariant usbRxBuf[..] == Splice(before, at, raw[..i])
      {
        SpliceNext(before, at, raw, i);
        usbRxBuf[at + i] := raw[i];
        assert usbRxBuf[..] == Splice(before, at, raw[..i])[at + i := raw[i]];
      }
      assert raw[..|raw|] == raw;
    }

    method HandleData(cnt: nat, ghost pc: Pc, ghost log: Log) returns (answer: Answer, ghost after: Log)
      requires Valid() && View(pc, log).Valid() && 1 <= cnt <= USB_BUFSIZE
      modifies this`usbRxLen, this`usbRxToken, this`usbInputBufOffset
      ensures Valid() && (View(pc, after), answer) == UsbMachine.HandleData(old(View(pc, log)), cnt)
    {
      hide State.PcValid, IsHandshake;
      after := log;
      var shift := usbCurrentTok;
      if shift == 0 { return Silence, log; }
      if usbRxLen != 0 { return Handshake(NAK), log; }
      if cnt < 4 { return Handshake(ACK), log; }
      after := UsbMachine.HandleData(View(pc, log), cnt).0.log;
      usbRxLen := cnt;
      usbRxToken := shift;
      usbInputBufOffset := USB_BUFSIZE - usbInputBufOffset;
      answer := Handshake(ACK);
    }

    method HandleIn(endpoint: byte, ghost pc: Pc, ghost log: Log) returns (answer: Answer, ghost after: Log)
      requires Valid() && View(pc, log).Valid()
      modifies this`usbTxLen, this`usbTxLen1
      ensures Valid() && (View(pc, after), answer) == UsbMachine.HandleIn(old(View(pc, log)), endpoint)
    {
      hide State.PcValid, Setups;
      after := UsbMachine.HandleIn(View(pc, log), endpoint).0.log;
      if usbRxLen >= 1 { return Handshake(NAK), after; }
      if endpoint != 0 {
        if IsHandshake(usbTxLen1) { return Handshake(usbTxLen1), after; }
        answer := Data1(usbTxBuf1[..usbTxLen1 - 1]);
        usbTxLen1 := NAK;
      } else {
        if IsHandshake(usbTxLen) { return Handshake(usbTxLen), after; }
        answer := Data0(usbTxBuf[..usbTxLen - 1]);
        usbTxLen := NAK;
      }
    }

    /** A token for this device. */
    method HandleToken(token: byte, ghost pc: Pc, ghost log: Log) returns (answer: Answer, ghost after: Log)
      requires Valid() && View(pc, log).Valid()
      modifies this`usbCurrentTok, this`usbTxLen, this`usbTxLen1
      ensures Valid()
      ensures
        var s := old(View(pc, log));
        var endpoint := Endpoint(s.rx.buf[s.rx.offset + 1], s.rx.buf[s.rx.offset + 2]);
        (View(pc, after), answer) ==
        if token == PID_IN then UsbMachine.HandleIn(s, endpoint)
        else
          var current := if endpoint == 0 then token else endpoint;
          SetCurrent(s, if token != PID_SETUP && token != PID_OUT then 0 else current)
    {
      hide State.PcValid, UsbMachine.HandleIn, IsHandshake, Endpoint;
      answer, after := Silence, log;
      var x3 := Endpoint(usbRxBuf[usbInputBufOffset + 1], usbRxBuf[usbInputBufOffset + 2]);
      if token == PID_IN {
        answer, after := HandleIn(x3, pc, log);
      } else if token == PID_SETUP || token == PID_OUT {
        usbCurrentTok := if x3 == 0 then token else x3;
      } else {
        usbCurrentTok := 0;
      }
    }

    /** From `se0` on, for a packet the receiver took in. */
    method Se0(a: Arrival, ghost pc: Pc, ghost log: Log) returns (answer: Answer, ghost after: Log)
      requires Valid() && View(pc, log).Valid() && a.Valid()
      modifies this`usbRxLen, this`usbRxToken, this`usbInputBufOffset, this`usbCurrentTok
      modifies this`usbTxLen, this`usbTxLen1, usbRxBuf
      ensures Valid() && (View(pc, after), answer) == Interrupt(old(View(pc, log)), a)
    {
      hide State.PcValid, UsbMachine.HandleIn, UsbMachine.HandleData, IsHandshake, Endpoint, Splice;
      Receive(a.raw);
      assert View(pc, log) == Receiver(old(View(pc, log)), a.raw);
      answer, after := Silence, log;
      var token := a.raw[0];
      if !a.overflow && (token == DATA0 || token == DATA1) {
        answer, after := HandleData(|a.raw|, pc, log);
      } else if !a.overflow && a.mine {
        answer, after := HandleToken(token, pc, log);
      } else {
        usbCurrentTok := 0;
      }
    }

    // ---------------------------------------------------------- usbSetInterrupt

    /** The copying loop: one byte at least. */
    method CopyIn(data: array<byte>, len: nat)
      requires Valid() && data != usbTxBuf1 && ValidCall(data[..], len)
      modifies usbTxBuf1
      ensures Valid() && usbTxBuf1[..] == Splice(old(usbTxBuf1[..]), 1, data[..Copied(len)])
    {
      var p := 0;
      var more := true;
      while more
        invariant 0 <= p <= Copied(len) && more == (p < Copied(len))
        invariant usbTxBuf1[..] == Splice(old(usbTxBuf1[..]), 1, data[..p])
        decreases Copied(len) - p
      {
        usbTxBuf1[1 + p] := data[p];
        p := p + 1;
        more := len > p;
      }
    }

    /** Data and checksum behind the PID. */
    method FillIn(data: array<byte>, len: nat)
      requires Valid() && data != usbTxBuf1 && ValidCall(data[..], len)
      modifies usbTxBuf1
      ensures Valid() && usbTxBuf1[..] == FilledBuffer(old(usbTxBuf1[..]), old(usbTxBuf1[0]), data[..], len)
    {
      hide Toggle, Crc16.Trailer, IsHandshake, Splice;
      ghost var before, src := usbTxBuf1[..], data[..];
      CopyIn(data, len);
      ghost var copied := usbTxBuf1[..];
      assert before[0 := before[0]] == before && src[..Copied(len)] == data[..Copied(len)];
      SpliceRead(before, 1, src[..Copied(len)], 0, len);
      assert usbTxBuf1[1..1 + len] == src[..len];
      Crc16.UsbCrc16Append(usbTxBuf1, 1, len);
      assert usbTxBuf1[..] == Splice(copied, 1 + len, Crc16.Trailer(src[..len]));
    }

    method SetInterrupt(data: array<byte>, len: nat, ghost log: Log) returns (ghost after: Log)
      requires Valid() && data != usbTxBuf1 && ValidCall(data[..], len)
      modifies this`usbTxLen1, usbTxBuf1
      ensures Valid() && View(App, after) == UsbAlone.SetInterrupt(old(View(SiTest(data[..], len), log)))
    {
      hide Toggle, FilledBuffer;
      ghost var free, before := IsHandshake(usbTxLen1), usbTxBuf1[..];
      after := log.(loaded := log.loaded + [data[..][..len]], late := log.late + if free then 0 else 1);
      if IsHandshake(usbTxLen1) {
        usbTxBuf1[0] := Toggle(usbTxBuf1[0]);
        assert usbTxBuf1[..] == before[0 := Toggle(before[0])];
      } else {
        usbTxLen1 := NAK;
      }
      SameFilling(before, usbTxBuf1[0], data[..], len);
      SameFilling(before, before[0], data[..], len);
      FillIn(data, len);
      usbTxLen1 := len + 4;
    }

    // ----------------------------------------------------------------- usbPoll

    /** `usbDeviceRead`: the next bytes of the message go to the transmit buffer. */
    method DeviceRead(len: nat)
      requires Valid() && len <= 8 && len <= |usbMsg|
      modifies this`usbMsg, usbTxBuf
      ensures usbTxBuf[..] == Splice(old(usbTxBuf[..]), 1, old(usbMsg[..len])) && usbMsg == old(usbMsg[len..])
    {
      if len > 0 {
        var i, r := 0, usbMsg;
        while i < len
          invariant usbMsg == old(usbMsg) && i <= len && r == usbMsg[i..]
          invariant usbTxBuf[..] == Splice(old(usbTxBuf[..]), 1, usbMsg[..i])
        {
          usbTxBuf[1 + i] := r[0];
          r := r[1..];
          i := i + 1;
        }
        usbMsg := r;
      }
      assert len == 0 ==> usbMsg == usbMsg[0..] && usbTxBuf[..] == Splice(usbTxBuf[..], 1, usbMsg[..0]);
    }

    /** Toggling, data and checksum of the next packet. */
    method FillBlock(len: nat)
      requires Valid() && len <= 8 && len <= |usbMsg|
      modifies this`usbMsg, usbTxBuf
      ensures usbMsg == old(usbMsg[len..])
      ensures usbTxBuf[..] == BlockBuffer(old(usbTxBuf[..]), Toggle(old(usbTxBuf[0])), old(usbMsg[..len]))
    {
      hide Toggle, Crc16.Trailer, IsHandshake, Splice;
      ghost var chunk, toggled := usbMsg[..len], usbTxBuf[..][0 := Toggle(usbTxBuf[0])];
      usbTxBuf[0] := Toggle(usbTxBuf[0]);
      assert usbTxBuf[..] == toggled;
      DeviceRead(len);
      ghost var copied := usbTxBuf[..];
      SpliceRead(toggled, 1, chunk, 0, len);
      assert usbTxBuf[1..1 + len] == chunk;
      Crc16.UsbCrc16Append(usbTxBuf, 1, len);
      assert usbTxBuf[..] == Splice(copied, 1 + len, Crc16.Trailer(chunk));
    }

    method BuildTxBlock(ghost log: Log)
      requires Valid() && IsHandshake(usbTxLen) && usbMsgLen != USB_NO_MSG
      modifies this`usbMsg, this`usbMsgLen, this`usbTxLen, usbTxBuf
      ensures Valid() && View(App, log) == BuildBlock(old(View(TxTest, log)))
    {
      hide Toggle, BlockBuffer, IsHandshake;
      ghost var message := Message().value;
      var wantLen := usbMsgLen;
      if wantLen > 8 {
        wantLen := 8;
      }
      assert message[..wantLen] == usbMsg[..wantLen];
      assert message[wantLen..] == usbMsg[wantLen..][..usbMsgLen - wantLen];
      usbMsgLen := usbMsgLen - wantLen;
      FillBlock(wantLen);
      var len := wantLen + 4;
      if len < 12 {
        usbMsgLen := USB_NO_MSG;
      }
      usbTxLen := len;
    }

    /** A SETUP drops the pending transmission before the request is looked at; some requests
        reset the toggling of endpoint 1. */
    method DropReply(reset: bool, ghost log: Log) returns (ghost after: Log)
      requires Valid()
      modifies this`usbTxLen, usbTxBuf, usbTxBuf1
      ensures Valid()
      ensures
        var s := old(View(TxTest, log));
        var t := s.(tx0 := Tx(s.tx0.buf[0 := DATA0], NAK));
        View(TxTest, after) == if reset then ResetToggling(t) else t
    {
      hide IsHandshake, Rx.Valid, State.PcValid;
      after := if reset then log.(epoch := [], carried := !IsHandshake(usbTxLen1)) else log;
      usbTxBuf[0] := DATA0;
      assert IsHandshake(NAK) by { NakIsHandshake(); }
      usbTxLen := NAK;
      if reset {
        usbTxBuf1[0] := DATA1;
      }
    }

    method ReplyLength(ptr: nat, replyLen: nat) returns (r: nat)
      requires ptr + 8 <= usbRxBuf.Length && replyLen <= 254
      ensures r == Min(replyLen, WordAt(usbRxBuf[..], ptr + 6))
    {
      r := LimitReply(replyLen, usbRxBuf[ptr + 6], usbRxBuf[ptr + 7]);
    }

    /** A SETUP of eight bytes. */
    method ProcessSetup(ptr: nat, message: seq<byte>, replyLen: nat, reset: bool, ghost log: Log)
      returns (ghost c: Choice, ghost after: Log)
      requires Valid() && ptr + 8 <= usbRxBuf.Length && replyLen <= 254 && replyLen <= |message|
      modifies this`usbTxLen, this`usbMsg, this`usbMsgLen, usbTxBuf, usbTxBuf1
      ensures Valid() && c.Valid()
      ensures c == Choice(message[..Min(replyLen, WordAt(usbRxBuf[..], ptr + 6))], reset, None)
      ensures
        var s := old(View(TxTest, log));
        View(TxTest, after) == Replied(s.(tx0 := Tx(s.tx0.buf[0 := DATA0], NAK)), c)
    {
      hide IsHandshake, ResetToggling, WordAt;
      after := DropReply(reset, log);
      usbMsg := message;
      usbMsgLen := ReplyLength(ptr, replyLen);
      c := Choice(message[..usbMsgLen], reset, None);
      after := after.(replies := after.replies + [c.reply], count := 0);
    }

    /** `usbProcessRx`. `message` and `replyLen` are what the request handlers answer to a
        SETUP, `reset` whether they reset the toggling of endpoint 1; the data of an OUT
        packet for another endpoint is given to `usbFunctionWriteOut`. */
    method ProcessRx(ptr: nat, len: nat, message: seq<byte>, replyLen: nat, reset: bool, ghost log: Log)
      returns (out: Option<seq<byte>>, ghost c: Choice, ghost after: Log)
      requires Valid() && usbRxLen > 0 && ptr == USB_BUFSIZE + 1 - usbInputBufOffset && len == usbRxLen - 3
      requires replyLen <= 254 && replyLen <= |message|
      modifies this`usbTxLen, this`usbMsg, this`usbMsgLen, usbTxBuf, usbTxBuf1
      ensures Valid() && c.Valid() && c.call == None
      ensures View(TxTest, after).(rx := View(TxTest, after).rx.(len := 0)) ==
              UsbAlone.ProcessRx(old(View(Enter(len), log)), c)
      ensures usbRxToken == PID_SETUP && len == 8 ==>
                c.reply == message[..Min(replyLen, WordAt(old(usbRxBuf[..]), ptr + 6))]
      ensures out == if usbRxToken < 0x10 then Some(old(usbRxBuf[..])[ptr..ptr + len]) else None
    {
      hide IsHandshake, Replied;
      c := Choice([], reset, None);
      out := None;
      ghost var p := Packet(usbRxToken, usbRxBuf[ptr..ptr + len]);
      after := log.(processed := log.processed + [p]);
      if usbRxToken < 0x10 {
        out := Some(usbRxBuf[ptr..ptr + len]);
      }
      if usbRxToken == PID_SETUP && len == 8 {
        c, after := ProcessSetup(ptr, message, replyLen, reset, after);
      }
    }

    /** The second half of `usbPoll`. */
    method BuildTurn(ghost c: Choice, ghost log: Log)
      requires Valid() && c.Valid()
      modifies this`usbMsg, this`usbMsgLen, this`usbTxLen, usbTxBuf
      ensures Valid() && View(App, log) == BuildBlock(old(View(TxTest, log)))
    {
      hide BuildBlock;
      if IsHandshake(usbTxLen) && usbMsgLen != USB_NO_MSG {
        BuildTxBlock(log);
      } else {
        NothingToBuild(View(TxTest, log), c);
      }
    }

    /** `usbPoll`, up to the sampling of the bus lines. */
    method Poll(message: seq<byte>, replyLen: nat, reset: bool, ghost log: Log)
      returns (out: Option<seq<byte>>, ghost c: Choice, ghost after: Log)
      requires Valid() && replyLen <= 254 && replyLen <= |message|
      modifies this`usbRxLen, this`usbTxLen, this`usbMsg, this`usbMsgLen, usbTxBuf, usbTxBuf1
      ensures Valid() && c.Valid()
      ensures View(App, after) == PollOnce(old(View(Pc.Poll, log)), c)
      ensures usbRxToken == PID_SETUP && old(usbRxLen) == 11 ==>
                c.reply == message[..Min(replyLen, WordAt(old(usbRxBuf[..]), USB_BUFSIZE + 7 - usbInputBufOffset))]
      ensures out == if old(usbRxLen) > 0 && usbRxToken < 0x10 then Some(old(View(Pc.Poll, log)).rx.Stored()) else None
    {
      hide UsbAlone.ProcessRx, BuildBlock, IsHandshake;
      out, c, after := None, Choice([], false, None), log;
      var len := usbRxLen - 3;
      if len >= 0 {
        out, c, after := ProcessRx(USB_BUFSIZE + 1 - usbInputBufOffset, len, message, replyLen, reset, log);
        SameProcess(old(View(Pc.Poll, log)), c);
        usbRxLen := 0;
      }
      BuildTurn(c, after);
    }
  }

  lemma SameFilling(buf: seq<byte>, pid: byte, src: seq<byte>, size: nat)
    requires |buf| == USB_BUFSIZE && ValidCall(src, size)
    ensures FilledBuffer(buf[0 := pid], pid, src, size) == FilledBuffer(buf, pid, src, size)
    ensures buf[0 := buf[0]] == buf
  {
    assert buf[0 := pid][0 := pid] == buf[0 := pid];
  }

  lemma NakIsHandshake()
    ensures IsHandshake(NAK)
  {}

  /** The two bytes of a word in a SETUP packet, the low one first (table 9-2 of USB 2.0). */
  lemma WordIs(buf: seq<byte>, i: nat, n: nat)
    requires i + 1 < |buf| && n < 0x1_0000
    requires buf[i] as int == n % 0x100 && buf[i + 1] as int == n / 0x100
    ensures WordAt(buf, i) == n
  {}

  function WordAt(buf: seq<byte>, i: nat): nat
    requires i + 1 < |buf|
  {
    (buf[i + 1] as int) * 0x100 + (buf[i] as int)
  }
}
