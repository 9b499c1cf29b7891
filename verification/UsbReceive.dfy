/** Reception: over every interleaving of interrupts and main program, each data packet that
    is acknowledged is processed exactly once, in order, under its own token. */
module UsbReceive {
  import opened Bytes
  import opened UsbMachine

  /** From the moment the main program has seen `usbRxLen` until it clears it. */
  predicate Processing(pc: Pc) {
    pc.Enter? || pc.SetupToken? || pc.SetupNak? || pc.Reading? || pc.SetupReply? || pc.Release?
  }

  /** The packet acknowledged but not yet processed. */
  function InFlight(s: State): seq<Packet>
    requires s.Valid()
  {
    if s.rx.len == 0 || s.pc.SetupReply? || s.pc.Release? then [] else [Packet(s.rx.token, s.rx.Stored())]
  }

  /** The main program's local variables fit the shared ones. */
  predicate LocalsFit(s: State)
    requires s.Valid()
  {
    match s.pc
    case Enter(n) => n + 3 == s.rx.len
    case SetupToken(ptr, n) => ptr == s.rx.Start() && n == 8 && s.rx.len == 11 && s.rx.token == PID_SETUP
    case SetupNak(ptr, n) => ptr == s.rx.Start() && n == 8 && s.rx.len == 11 && s.rx.token == PID_SETUP
    case Reading(ptr, n, got) =>
      ptr == s.rx.Start() && n + 3 == s.rx.len && |got| <= n && got == s.rx.buf[ptr..ptr + |got|]
    case SetupReply => s.rx.len == 11 && s.rx.token == PID_SETUP
    case Release => s.rx.len > 0
    case _ => true
  }

  predicate RxInv(s: State) {
    s.Valid() && LocalsFit(s) && s.log.acked == s.log.processed + InFlight(s)
  }

  /** Receiving into one half leaves the other half alone. */
  lemma ReceiverKeepsRx(s: State, raw: seq<byte>)
    requires RxInv(s) && |raw| <= USB_BUFSIZE
    ensures RxInv(Receiver(s, raw))
  {
    hide Tx.Valid, State.PcValid;
    var r, from := Receiver(s, raw), s.rx.Start();
    assert forall k :: from <= k < from + 8 ==> r.rx.buf[k] == s.rx.buf[k];
    assert r.rx.buf[from..from + 8] == s.rx.buf[from..from + 8];
    if s.rx.len > 0 {
      SamePrefix(r.rx.buf, s.rx.buf, from, s.rx.len - 3);
    }
    if s.pc.Reading? {
      SamePrefix(r.rx.buf, s.rx.buf, from, |s.pc.got|);
    }
  }

  lemma SamePrefix(b: seq<byte>, c: seq<byte>, from: nat, n: nat)
    requires n <= 8 && from + 8 <= |b| == |c| && b[from..from + 8] == c[from..from + 8]
    ensures b[from..from + n] == c[from..from + n]
  {
    assert b[from..from + n] == b[from..from + 8][..n];
    assert c[from..from + n] == c[from..from + 8][..n];
  }

  lemma InterruptKeepsRx(s: State, a: Arrival)
    requires RxInv(s) && a.Valid()
    ensures RxInv(Interrupt(s, a).0)
  {
    hide Classify, HandleIn, HandleData, Receiver;
    ReceiverKeepsRx(s, a.raw);
    var s := Receiver(s, a.raw);
    match Classify(s.rx, a)
    case Other(current) =>
    case Data => DataKeepsRx(s, |a.raw|);
    case In(endpoint) => InKeepsRx(s, endpoint);
  }

  lemma DataKeepsRx(s: State, cnt: nat)
    requires RxInv(s) && 1 <= cnt <= USB_BUFSIZE
    ensures RxInv(HandleData(s, cnt).0)
  {
    if s.rx.currentTok != 0 && s.rx.len == 0 && cnt >= 4 {
      var r := HandleData(s, cnt).0;
      assert r.rx.Stored() == s.rx.buf[s.rx.offset + 1..s.rx.offset + cnt - 2];
      assert s.log.processed + [] == s.log.processed;
    }
  }

  lemma InKeepsRx(s: State, endpoint: byte)
    requires RxInv(s)
    ensures RxInv(HandleIn(s, endpoint).0)
  {
    hide IsHandshake;
  }

  lemma MainKeepsRx(s: State, c: Choice, guarded: bool)
    requires RxInv(s) && c.Valid()
    ensures RxInv(Main(s, c, guarded))
  {
    hide Build, Send, Receive, IsHandshake;
    if InReceive(s.pc) {
      ReceiveKeepsRx(s, c);
    } else if InBuild(s.pc) {
      BuildKeepsRx(s);
    } else if InSend(s.pc) {
      SendKeepsRx(s);
    }
  }

  lemma BuildKeepsRx(s: State)
    requires RxInv(s) && InBuild(s.pc)
    ensures RxInv(Build(s))
  {
    hide Splice, IsHandshake;
  }

  lemma SendKeepsRx(s: State)
    requires RxInv(s) && InSend(s.pc)
    ensures RxInv(Send(s))
  {
    hide Splice, IsHandshake;
  }

  lemma ReceiveKeepsRx(s: State, c: Choice)
    requires RxInv(s) && c.Valid() && InReceive(s.pc)
    ensures RxInv(Receive(s, c))
  {
    hide IsHandshake, ResetToggling, Tx.Valid, State.PcValid;
    if s.pc.Reading? {
      ReadingKeepsRx(s, c);
    }
  }

  lemma SliceGrows(b: seq<byte>, from: nat, n: nat)
    requires from + n < |b|
    ensures b[from..from + n] + [b[from + n]] == b[from..from + n + 1]
  {}

  lemma ReadingKeepsRx(s: State, c: Choice)
    requires RxInv(s) && c.Valid() && s.pc.Reading?
    ensures RxInv(Receive(s, c))
  {
    hide IsHandshake, ResetToggling, Tx.Valid;
    var ptr, n, got := s.pc.ptr, s.pc.n, s.pc.got;
    if |got| < n {
      SliceGrows(s.rx.buf, ptr, |got|);
    } else {
      assert got == s.rx.Stored();
      assert s.log.processed + [Packet(s.rx.token, got)] + [] == s.log.acked;
    }
  }
}
